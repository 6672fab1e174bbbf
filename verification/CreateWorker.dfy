/** The worker of icloud_gateway/jobs.py in its own form: methods that rewrite rows step by
    step and may die after every write.  Each method proves that what it did is a legal run
    of the protocol of module CreateProtocol, whose theorems therefore apply to it. */
module CreateWorker {
  import opened CreateProtocol
  import opened CreateSafety

  datatype Outcome =
    | Ok | CapacityFull | Limited | Retry | Stopped | MarkedFailed | MarkedUnknown | Crashed

  datatype Preflight = Clear | StopRequested | HmeFault | OtherError
  datatype GenerateAnswer = Suggest(email: Email) | GenFull | GenLimited | GenHmeFault | GenOther
  datatype ReserveAnswer = Reply | ResFull | ResLimited | Raised(fault: Fault) | ResOther
  datatype Lookup = Found | Missing | NoAnswer | LookupStopped

  /** What a read of the remote list gives: all of it, a part, an error, or a stop before it. */
  datatype Reading = Whole | Part(listed: set<Email>) | ReadFails | ReadStops

  /** Where the process dies or something raises during a visit. */
  datatype Point =
    | DiesOnSuggestion | DiesOnSave | DiesOnUnmark | SessionIsGone | UnmarkFails | DiesOnReserve
    | RecordFails | DiesOnRecord | SuccessFails | DiesInHandler | StopsInHandler | DiesAfter | FailsAfter

  /** What the world does to one visit: whether others keep quiet, how each call is answered, and
      the faults. */
  datatype Course = Course(quiet: bool, preflight: Preflight, generate: GenerateAnswer, lookup: Reading, stop: bool,
                           reserve: ReserveAnswer, applies: bool, lookupAfter: Reading, faults: set<Point>)
  {
    /** The address that `generate` suggests, which nobody else takes. */
    function Spare(): Email { if generate.Suggest? then generate.email else "" }
  }

  const COMPLETION := {RecordFails, DiesOnRecord, SuccessFails}

  /** How the handler of all other exceptions leaves the visit. */
  function HandlerEnds(attempted: bool, faults: set<Point>): Outcome {
    if !attempted && StopsInHandler in faults then Stopped
    else if DiesInHandler in faults then Crashed
    else if attempted then MarkedUnknown else MarkedFailed
  }

  /** The row a visit leaves, by its outcome; `saved` is the candidate it started from. */
  predicate Leaves(it: Item, outcome: Outcome, saved: Email) {
    match outcome
    case Ok => it.status == Success && it.result.Created? && (saved != "" ==> it.result.email == saved)
    case CapacityFull => it == Item(Queued, WaitingCapacity, Pending("", false, CapacityReached, 0))
    case Limited => it.status == Queued && it.result.Pending? && it.result.wait == RateLimited
                    && Candidate(it) == "" && !Marked(it)
    case Retry => it.status == Queued && it.result.Pending? && it.result.wait == Transient && it.result.attempts > 0
    case MarkedUnknown => it.status == Unknown && (Candidate(it) != "" || it.result.Created?)
    case MarkedFailed => it.status == Failed
    case Stopped => it.status in {Queued, Running, Success}
    case Crashed => true
  }

  /** The row after a reserve was due for row `was`: never a candidate that may exist remotely
      without its mark, and the same address in every case that keeps one. */
  predicate AfterSending(it: Item, was: Item, outcome: Outcome) {
    match outcome
    case Ok => it == Item(Success, Completed, Created(Candidate(was)))
    case CapacityFull => it == Item(Queued, WaitingCapacity, Pending("", false, CapacityReached, 0))
    case Limited => it == Item(Queued, WaitingQuota, Pending("", false, RateLimited, Attempts(was)))
    case Retry => it == Parked(Candidate(was), true, Attempts(was) + 1) || it == Parked("", false, Attempts(was) + 1)
    case MarkedUnknown => it.status == Unknown && it.result == was.result
    case Stopped => it.status == Queued && Candidate(it) == Candidate(was)
    case MarkedFailed => false
    case Crashed => it.result == was.result
  }

  class Worker {
    // batch_job_items and the ids in the aliases table
    var items: seq<Item>
    var known: set<Email>
    // the remote service, with the bookkeeping of World
    var remote: set<Email>
    var owner: map<Email, nat>
    var ever: set<Email>
    var made: seq<nat>
    var lost: seq<nat>
    // every event since the start
    ghost var log: seq<Event>

    ghost function W(): World
      reads this
    {
      World(items, known, remote, owner, ever, made, lost)
    }

    /** The state is what the logged run leads to, and the run is legal. */
    ghost predicate Valid()
      reads this
    {
      Legal(Empty, log) && Exec(Empty, log) == W()
    }

    twostate predicate OnlyRowChanged(i: nat)
      reads this
    {
      |items| == old(|items|) && forall j: nat | j < |items| && j != i :: items[j] == old(items)[j]
    }

    constructor ()
      ensures Valid() && log == [] && W() == Empty
    {
      items, known, remote, owner, ever, made, lost := [], {}, {}, map[], {}, [], [];
      log := [];
    }

    lemma Invariant()
      requires Valid()
      ensures Inv(W())
    {
      RunKeeps(Empty, log);
    }

    /** Bookkeeping shared by all steps: the fields moved from `before` by event e. */
    ghost method Record(before: World, e: Event)
      requires Legal(Empty, log) && Exec(Empty, log) == before
      requires Enabled(before, e) && W() == Apply(before, e)
      modifies this`log
      ensures Valid() && log == old(log) + [e]
    {
      StepRun(before, e, []);
      assert [e] + [] == [e];
      RunsConcatenate(Empty, log, [e]);
      log := log + [e];
    }

    /** update_batch_item: the result column keeps its value when no result is given. */
    method UpdateBatchItem(i: nat, stage: Stage, status: Status, keepResult: bool, result: Result, ghost e: Event)
      requires Valid() && i < |items| && Enabled(W(), e)
      requires Apply(W(), e)
            == Put(W(), i, Item(status, stage, if keepResult then items[i].result else result))
      modifies this
      ensures Valid() && log == old(log) + [e]
      ensures W() == Put(old(W()), i, Item(status, stage, if keepResult then old(items[i].result) else result))
    {
      ghost var before := W();
      items := items[i := Item(status, stage, if keepResult then items[i].result else result)];
      Record(before, e);
    }

    // -------------------------------------------------------------- surroundings

    method RemoteChanges(a: Email)
      requires Valid()
      modifies this
      ensures Valid() && old(log) <= log
      ensures items == old(items) && owner == old(owner) && made == old(made) && ever == old(ever)
      ensures remote <= old(remote) + if a in owner then {} else {a}
    {
      ghost var before := W();
      if a !in owner {
        remote := remote + {a};
        Record(before, RemoteAdded(a));
      } else if a in remote {
        assert owner[a] < |lost| by { Invariant(); }
        remote := remote - {a};
        lost := lost[owner[a] := lost[owner[a]] + 1];
        Record(before, RemoteRemoved(a));
      }
    }

    method LocalChanges(a: Email)
      requires Valid()
      modifies this
      ensures Valid() && old(log) <= log
      ensures items == old(items) && owner == old(owner) && made == old(made) && ever == old(ever)
      ensures remote == old(remote)
    {
      ghost var before := W();
      known := known + {a};
      Record(before, LocalSynced({a}));
    }

    /** Between two steps of a visit other clients add and remove remote aliases and a sync
        may import what it lists; nothing happens if `quiet`.  Nobody else takes the suggested
        address `spare`.  Deleting a local alias needs the lifecycle lock, which the visit holds;
        rows are written by the worker only. */
    method Interference(quiet: bool, spare: Email)
      requires Valid()
      modifies this
      ensures Valid() && items == old(items) && owner == old(owner) && made == old(made) && ever == old(ever)
      ensures old(log) <= log
      ensures forall a | a in owner && a in remote :: a in old(remote)
      ensures spare in remote ==> spare in old(remote)
      ensures quiet ==> remote == old(remote) && known == old(known)
    {
      var rounds: nat := *;
      while rounds > 0
        invariant Valid() && items == old(items) && owner == old(owner) && made == old(made) && ever == old(ever)
        invariant old(log) <= log && (spare in remote ==> spare in old(remote))
        invariant forall a | a in owner && a in remote :: a in old(remote)
        invariant quiet ==> remote == old(remote) && known == old(known)
      {
        var a: Email, local: bool := *, *;
        if !quiet && local {
          LocalChanges(a);
        } else if !quiet && a != spare {
          RemoteChanges(a);
        }
        rounds := rounds - 1;
      }
    }

    /** Freshness check, lifecycle lock, session and client (jobs.py 1002-1011).  The
        assumption of the main theorem: no stop and no HME error here on a marked row. */
    function BeforeCandidate(it: Item, preflight: Preflight): Preflight {
      if Marked(it) && (preflight == StopRequested || preflight == HmeFault) then Clear else preflight
    }

    /** A suggestion that somebody has is no suggestion. */
    method GenerateAlias(answer: GenerateAnswer) returns (a: GenerateAnswer)
      ensures a == if answer.Suggest? && (answer.email in owner || answer.email in remote) then GenOther else answer
    {
      a := answer;
      if a.Suggest? && (a.email in owner || a.email in remote) {
        a := GenOther;
      }
    }

    /** A reserve takes effect before the call returns or raises, or never: always with a reply, not
        with a capacity or rate-limit answer, and otherwise as `applies` says. */
    method ReserveAlias(i: nat, answer: ReserveAnswer, applies: bool)
      requires Valid() && AtStage(W(), i, Reserving) && Candidate(items[i]) !in remote
      modifies this
      ensures Valid() && items == old(items) && owner == old(owner) && known == old(known) && old(log) <= log
      ensures answer.Reply? ==> Candidate(items[i]) in ever && Candidate(items[i]) in remote
      ensures answer.ResFull? || answer.ResLimited? ==> Candidate(items[i]) !in remote
      ensures answer.Raised? || answer.ResOther? ==> (Candidate(items[i]) in remote <==> applies)
      ensures remote <= old(remote) + {Candidate(items[i])} && old(remote) <= remote
    {
      assert i < |made| by { Invariant(); }
      var c := Candidate(items[i]);
      if answer.Reply? || (applies && !answer.ResFull? && !answer.ResLimited?) {
        ghost var before := W();
        remote, ever, made := remote + {c}, ever + {c}, made[i := made[i] + 1];
        Record(before, ReserveApplied(i));
      }
    }

    /** _validated_candidate_snapshot: the list is read without any lock, so only what is
        true of it for good may be used afterwards.  A list that names every known alias is whole. */
    method LookupCandidate(c: Email, reading: Reading) returns (r: Lookup)
      requires Valid() && c in owner
      ensures r == Found ==> c in ever
      ensures r == Missing ==> c !in remote
      ensures reading == ReadStops <==> r == LookupStopped
      ensures reading == ReadFails ==> r == NoAnswer
      ensures reading == Whole ==> (r == Found <==> c in remote) && (r == Missing <==> c !in remote && known <= remote)
    {
      if reading == ReadStops {
        return LookupStopped;
      }
      if reading == ReadFails {
        return NoAnswer;
      }
      var listed := if reading.Part? then reading.listed * remote else remote;
      if known <= listed {
        listed := remote;
      }
      if c in listed {
        Invariant();
        return Found;
      }
      return if known <= listed then Missing else NoAnswer;
    }

    /** The suggestion is written to the row before it can be sent. */
    method SaveSuggestion(i: nat, c: Email)
      requires Valid() && AtStage(W(), i, Generating) && OneAt(c) && c !in owner && c !in remote
      modifies this
      ensures Valid() && old(log) <= log && OnlyRowChanged(i)
      ensures items[i] == Item(Queued, Generated, Pending(c, false, NoWait, 0))
      ensures owner == old(owner)[c := i]
    {
      ghost var before := W();
      items := items[i := Item(Queued, Generated, Pending(c, false, NoWait, 0))];
      owner := owner[c := i];
      Record(before, SaveCandidate(i, c));
    }

    // -------------------------------------------------------------- parking

    method PauseForTransientRetry(i: nat, c: Email, mark: bool, attempts: nat, ghost e: Event)
      requires Valid() && i < |items| && Enabled(W(), e)
      requires Apply(W(), e) == Put(W(), i, Parked(c, mark, attempts + 1))
      modifies this
      ensures Valid() && log == old(log) + [e]
      ensures W() == Put(old(W()), i, Parked(c, mark, attempts + 1))
      ensures items[i] == Item(Queued, if mark then WaitingReconcile else WaitingRetry,
                               Pending(c, mark, Transient, attempts + 1))
    {
      UpdateBatchItem(i, if mark then WaitingReconcile else WaitingRetry, Queued, false,
                      Pending(c, mark, Transient, attempts + 1), e);
    }

    method PauseForCapacity(i: nat, ghost e: Event)
      requires Valid() && i < |items| && Enabled(W(), e)
      requires Apply(W(), e) == Put(W(), i, Item(Queued, WaitingCapacity, Pending("", false, CapacityReached, 0)))
      modifies this
      ensures Valid() && log == old(log) + [e]
      ensures W() == Put(old(W()), i, Item(Queued, WaitingCapacity, Pending("", false, CapacityReached, 0)))
    {
      UpdateBatchItem(i, WaitingCapacity, Queued, false, Pending("", false, CapacityReached, 0), e);
    }

    // -------------------------------------------------------------- completion

    /** upsert_created_alias */
    method RecordAlias(i: nat)
      requires Valid() && Completable(W(), i) && Candidate(items[i]) in ever
      modifies this`known, this`log
      ensures Valid() && log == old(log) + [RecordLocal(i)] && known == old(known) + {Candidate(items[i])}
    {
      ghost var before := W();
      known := known + {Candidate(items[i])};
      Record(before, RecordLocal(i));
    }

    /** _complete_created_alias: local row, access key, then the job row.  Any of the writes
        can fail; the handlers then depend on whether a reserve was attempted. */
    method CompleteCreatedAlias(i: nat, attempted: bool, faults: set<Point>) returns (outcome: Outcome)
      requires Valid() && Completable(W(), i) && Candidate(items[i]) in ever
      requires attempted <==> items[i].status == Running
      modifies this
      ensures Valid() && old(log) <= log && OnlyRowChanged(i)
      ensures outcome in {Ok, MarkedUnknown, MarkedFailed, Stopped, Crashed}
      ensures outcome == Ok <==> faults !! COMPLETION
      ensures outcome == Stopped ==> !attempted
      ensures outcome == Ok ==>
                items[i] == Item(Success, Completed, Created(old(Candidate(items[i]))))
                && old(Candidate(items[i])) in known
      ensures outcome == MarkedUnknown ==>
                attempted && items[i] == old(items[i]).(status := Unknown, stage := AtUnknown)
      ensures outcome == MarkedFailed ==> !attempted && items[i] == old(items[i]).(status := Failed, stage := AtFailed)
      ensures outcome == Stopped || outcome == Crashed ==> items[i] == old(items[i])
    {
      if RecordFails in faults {
        outcome := GiveUp(i, attempted, faults);
        return;
      }
      RecordAlias(i);
      if DiesOnRecord in faults {
        return Crashed;
      }
      if SuccessFails in faults {
        outcome := GiveUp(i, attempted, faults);
        return;
      }
      UpdateBatchItem(i, Completed, Success, false, Created(Candidate(items[i])), Succeed(i));
      return Ok;
    }

    /** The handler of all other exceptions (jobs.py 1253-1270). */
    method GiveUp(i: nat, attempted: bool, faults: set<Point>) returns (outcome: Outcome)
      requires Valid() && i < |items|
      requires if attempted then AtStage(W(), i, Reserving) else AtRest(W(), i) || AtStage(W(), i, Generating)
      modifies this
      ensures Valid() && old(log) <= log && OnlyRowChanged(i)
      ensures outcome == HandlerEnds(attempted, faults)
      ensures outcome in {MarkedUnknown, MarkedFailed, Stopped, Crashed}
      ensures outcome == Stopped ==> !attempted
      ensures outcome == MarkedUnknown ==>
                attempted && items[i] == old(items[i]).(status := Unknown, stage := AtUnknown)
      ensures outcome == MarkedFailed ==> !attempted && items[i] == old(items[i]).(status := Failed, stage := AtFailed)
      ensures outcome == Stopped || outcome == Crashed ==> items == old(items)
    {
      if !attempted && StopsInHandler in faults {
        return Stopped;
      }
      if DiesInHandler in faults {
        return Crashed;
      }
      if attempted {
        UpdateBatchItem(i, AtUnknown, Unknown, true, Blank, MarkUnknown(i));
        return MarkedUnknown;
      }
      UpdateBatchItem(i, AtFailed, Failed, true, Blank, MarkFailed(i));
      return MarkedFailed;
    }

    // -------------------------------------------------------------- one visit

    method AskForSuggestion(i: nat, course: Course) returns (a: GenerateAnswer)
      requires Valid() && AtRest(W(), i) && Candidate(items[i]) == ""
      modifies this
      ensures Valid() && old(log) <= log && OnlyRowChanged(i) && owner == old(owner)
      ensures items[i] == old(items[i]).(status := Running, stage := Generating)
      ensures a == course.generate || (course.generate.Suggest? && a == GenOther)
      ensures a.Suggest? ==> a.email !in owner && a.email !in remote
      ensures course.generate.Suggest? && course.generate.email !in owner && course.generate.email !in old(remote) ==>
                a == course.generate
    {
      UpdateBatchItem(i, Generating, Running, true, Blank, StartGenerate(i));
      Interference(course.quiet, course.Spare());
      a := GenerateAlias(course.generate);
    }

    /** jobs.py 1019-1055: ask for a suggestion and save it before it is used. */
    method ObtainCandidate(i: nat, course: Course) returns (outcome: Outcome)
      requires Valid() && AtRest(W(), i) && Candidate(items[i]) == ""
      modifies this
      ensures Valid() && old(log) <= log && OnlyRowChanged(i)
      ensures outcome in {Ok, CapacityFull, Limited, Retry, Stopped, MarkedFailed, Crashed}
      ensures outcome == Ok ==>
                && items[i].status == Queued && items[i].result == Pending(Candidate(items[i]), false, NoWait, 0)
                && OneAt(Candidate(items[i])) && Candidate(items[i]) !in old(owner)
      ensures outcome == CapacityFull ==>
                items[i] == Item(Queued, WaitingCapacity, Pending("", false, CapacityReached, 0))
      ensures outcome == Limited ==> items[i] == Item(Queued, WaitingQuota, old(items[i]).result.(wait := RateLimited))
      ensures outcome == Retry ==> items[i] == Parked("", false, old(Attempts(items[i])) + 1)
      ensures Candidate(items[i]) == "" || outcome == Ok || outcome == Crashed
      ensures outcome != Ok ==> !Marked(items[i]) && (items[i].result.Pending?)
      ensures outcome == Crashed || outcome == Stopped ==> items[i].status in {Queued, Running}
      ensures outcome == MarkedFailed ==> items[i].status == Failed
      // the answer decides
      ensures var g, f := course.generate, course.faults;
              if DiesOnSuggestion in f then outcome == Crashed else
              && (g.GenFull? <==> outcome == CapacityFull) && (g.GenLimited? <==> outcome == Limited)
              && (g.GenHmeFault? <==> outcome == Retry)
              && (g.GenOther? || (g.Suggest? && !OneAt(g.email)) ==> outcome == HandlerEnds(false, f))
              && (GoodSuggestion(g, old(owner), old(remote)) ==>
                    outcome == (if DiesOnSave in f then Crashed else Ok) && Candidate(items[i]) == g.email)
    {
      assert !Marked(items[i]) by { Invariant(); assert RowOk(W(), i, items[i]); }
      var answer := AskForSuggestion(i, course);
      if DiesOnSuggestion in course.faults {
        return Crashed;
      }
      if answer.GenFull? {
        PauseForCapacity(i, GenerateFull(i));
        return CapacityFull;
      }
      if answer.GenLimited? {
        UpdateBatchItem(i, WaitingQuota, Queued, false, items[i].result.(wait := RateLimited), GenerateLimited(i));
        return Limited;
      }
      if answer.GenHmeFault? {
        PauseForTransientRetry(i, "", false, Attempts(items[i]), GenerateFaulted(i));
        return Retry;
      }
      if answer.GenOther? || !OneAt(answer.email) {
        outcome := GiveUp(i, false, course.faults);
        return;
      }
      SaveSuggestion(i, answer.email);
      return if DiesOnSave in course.faults then Crashed else Ok;
    }

    /** An address that is well formed and that nobody has. */
    static predicate GoodSuggestion(g: GenerateAnswer, owner: map<Email, nat>, remote: set<Email>) {
      g.Suggest? && OneAt(g.email) && g.email !in owner && g.email !in remote
    }

    /** jobs.py 1060-1096: a marked candidate is looked up before anything is sent.  Ok with
        the row still queued means: absent, unmarked, ready to be reserved. */
    method ReconcileBeforeReserve(i: nat, course: Course) returns (outcome: Outcome, resolved: bool)
      requires Valid() && AtRest(W(), i) && Marked(items[i]) && items[i].result.wait == NoWait
      modifies this
      ensures Valid() && old(log) <= log && OnlyRowChanged(i)
      ensures outcome in {Ok, Retry, Stopped, MarkedFailed, Crashed}
      ensures outcome == Ok && resolved ==>
                items[i] == Item(Success, Completed, Created(old(Candidate(items[i]))))
                && old(Candidate(items[i])) in known
      ensures outcome == Ok && !resolved ==>
                && items[i] == Item(Queued, Generated, old(items[i]).result.(reconcile := false))
                && Candidate(items[i]) != ""
      ensures outcome in {Retry, Stopped, MarkedFailed, Crashed} ==>
                Candidate(items[i]) == old(Candidate(items[i])) != ""
      ensures outcome == Retry ==> items[i].status == Queued && items[i].result.wait == Transient
                                   && items[i].result.attempts == old(Attempts(items[i])) + 1
      ensures outcome == MarkedFailed ==> items[i].status == Failed
      ensures outcome == Stopped ==> items[i].status == Queued
      ensures course.lookup == ReadStops ==> items[i] == old(items[i]).(stage := Reconciling)
      // what the list says decides
      ensures course.lookup == ReadFails ==> outcome == Retry && Marked(items[i])
      ensures course.lookup == ReadStops ==> outcome == Stopped && Marked(items[i])
      ensures course.lookup == Whole && old(Candidate(items[i]) in remote) ==>
                resolved && (outcome == Ok <==> course.faults !! COMPLETION)
      ensures course.lookup == Whole && old(Candidate(items[i]) !in remote && known <= remote) ==>
                !resolved && (course.faults !! {DiesOnUnmark, SessionIsGone, UnmarkFails} ==> outcome == Ok)
      ensures course.lookup == Whole && old(Candidate(items[i]) !in remote && !(known <= remote)) ==>
                outcome == Retry && Marked(items[i])
    {
      var c := Candidate(items[i]);
      resolved := false;
      assert c != "" && c in owner by { Invariant(); assert RowOk(W(), i, items[i]); }
      var found := LookupCandidate(c, course.lookup);
      Interference(course.quiet, "");
      match found
      case Found =>
        resolved := true;
        outcome := CompleteCreatedAlias(i, false, course.faults);
      case NoAnswer =>
        PauseForTransientRetry(i, c, true, Attempts(items[i]), ReconcileUnavailable(i));
        outcome := Retry;
      case LookupStopped =>
        UpdateBatchItem(i, Reconciling, Queued, false, items[i].result.(reconcile := true), ReconcileStopped(i));
        outcome := Stopped;
      case Missing =>
        outcome := Unmark(i, course.faults);
    }

    /** jobs.py 1082-1096: the complete list does not contain the candidate. */
    method Unmark(i: nat, faults: set<Point>) returns (outcome: Outcome)
      requires Valid() && AtRest(W(), i) && Marked(items[i]) && items[i].result.wait == NoWait
      requires Candidate(items[i]) != "" && Candidate(items[i]) !in remote
      modifies this
      ensures Valid() && old(log) <= log && OnlyRowChanged(i)
      ensures outcome in {Ok, Retry, Stopped, MarkedFailed, Crashed}
      ensures outcome == Ok <==> faults !! {DiesOnUnmark, SessionIsGone, UnmarkFails}
      ensures outcome == Ok ==> items[i] == Item(Queued, Generated, old(items[i]).result.(reconcile := false))
      ensures Candidate(items[i]) == old(Candidate(items[i]))
      ensures outcome == Retry ==> items[i] == Parked(old(Candidate(items[i])), false, old(Attempts(items[i])) + 1)
      ensures outcome == MarkedFailed ==> items[i].status == Failed
      ensures outcome == Stopped ==> items[i].status == Queued
    {
      UpdateBatchItem(i, Generated, Queued, false, items[i].result.(reconcile := false), ReconcileAbsent(i));
      outcome := Ok;
      if DiesOnUnmark in faults {
        outcome := Crashed;
      } else if SessionIsGone in faults {
        PauseForTransientRetry(i, Candidate(items[i]), false, Attempts(items[i]), SessionGone(i));
        outcome := Retry;
      } else if UnmarkFails in faults {
        outcome := GiveUp(i, false, faults);
      }
    }

    /** jobs.py 1101-1169: the remote write, and what each answer to it means. */
    method ReserveAndComplete(i: nat, course: Course) returns (outcome: Outcome)
      requires Valid() && AtRest(W(), i) && !Marked(items[i])
      requires Candidate(items[i]) != "" && items[i].result.wait == NoWait
      modifies this
      ensures Valid() && old(log) <= log && OnlyRowChanged(i)
      ensures AfterSending(items[i], old(items[i]), outcome)
      ensures outcome == Ok ==> old(Candidate(items[i])) in known
      ensures course.stop ==>
                outcome == Stopped && items[i] == Item(Queued, Generated, old(items[i]).result)
                && log == old(log) + [StopBeforeReserve(i)]
      ensures !course.stop && DiesOnReserve in course.faults ==> outcome == Crashed
      ensures !course.stop && DiesOnReserve !in course.faults ==> Decided(course, outcome)
      ensures !course.stop && DiesOnReserve !in course.faults && course.reserve.Raised? && course.quiet
              && course.lookupAfter == Whole ==>
                if course.applies then outcome == Ok <==> course.faults !! COMPLETION
                else outcome == Retry && (old(known <= remote) ==>
                                            (Marked(items[i]) <==> course.reserve.fault != Rejected))
    {
      assert Candidate(items[i]) !in remote by { Invariant(); assert RowOk(W(), i, items[i]); }
      if course.stop {
        UpdateBatchItem(i, Generated, Queued, false, items[i].result.(wait := NoWait, reconcile := false),
                        StopBeforeReserve(i));
        return Stopped;
      }
      UpdateBatchItem(i, Reserving, Running, true, Blank, StartReserve(i));
      SendReserve(i, course);
      if DiesOnReserve in course.faults {
        return Crashed;
      }
      outcome := Answered(i, course);
    }

    /** What the answer to a reserve leads to. */
    predicate Decided(course: Course, outcome: Outcome) {
      match course.reserve
      case Reply => outcome == Ok <==> course.faults !! COMPLETION
      case ResFull => outcome == CapacityFull
      case ResLimited => outcome == Limited
      case ResOther => outcome == HandlerEnds(true, course.faults)
      case Raised(_) =>
        && (course.lookupAfter == ReadFails ==> outcome == Retry)
        && (course.lookupAfter == ReadStops ==> outcome == Stopped)
    }

    method SendReserve(i: nat, course: Course)
      requires Valid() && AtStage(W(), i, Reserving) && Candidate(items[i]) !in remote
      modifies this
      ensures Valid() && old(log) <= log && items == old(items)
      ensures Candidate(items[i]) in owner
      ensures course.reserve.Reply? ==> Candidate(items[i]) in ever
      ensures course.reserve.ResFull? || course.reserve.ResLimited? ==> Candidate(items[i]) !in remote
      ensures course.quiet && course.reserve.Raised? ==>
                known == old(known) && old(remote) <= remote && (Candidate(items[i]) in remote <==> course.applies)
    {
      assert Candidate(items[i]) in owner by { Invariant(); assert RowOk(W(), i, items[i]); }
      Interference(course.quiet, "");
      ReserveAlias(i, course.reserve, course.applies);
      Interference(course.quiet, "");
    }

    method Answered(i: nat, course: Course) returns (outcome: Outcome)
      requires Valid() && AtStage(W(), i, Reserving) && Candidate(items[i]) in owner
      requires course.reserve.Reply? ==> Candidate(items[i]) in ever
      requires course.reserve.ResFull? || course.reserve.ResLimited? ==> Candidate(items[i]) !in remote
      modifies this
      ensures Valid() && old(log) <= log && OnlyRowChanged(i)
      ensures AfterSending(items[i], old(items[i]), outcome)
      ensures outcome == Ok ==> old(Candidate(items[i])) in known
      // the answer decides: a reply completes the item, and only an explicit quota or capacity
      // answer drops the candidate at once
      ensures course.reserve.Reply? && course.faults !! COMPLETION ==>
                outcome == Ok && items[i] == Item(Success, Completed, Created(old(Candidate(items[i]))))
      ensures Decided(course, outcome)
      ensures course.reserve.ResFull? <==> outcome == CapacityFull
      ensures course.reserve.ResLimited? <==> outcome == Limited
      ensures course.reserve.Raised? && course.reserve.fault != Rejected && outcome == Retry ==> Marked(items[i])
      ensures course.reserve.Raised? && course.lookupAfter == Whole && old(Candidate(items[i]) in remote) ==>
                (outcome == Ok <==> course.faults !! COMPLETION)
      ensures course.reserve.Raised? && course.lookupAfter == Whole && old(Candidate(items[i]) !in remote) ==>
                outcome == Retry
                && (old(known <= remote) ==> (Marked(items[i]) <==> course.reserve.fault != Rejected))
    {
      match course.reserve
      case ResFull =>
        PauseForCapacity(i, ReserveFull(i));
        outcome := CapacityFull;
      case ResLimited =>
        UpdateBatchItem(i, WaitingQuota, Queued, false, Pending("", false, RateLimited, Attempts(items[i])),
                        ReserveLimited(i));
        outcome := Limited;
      case ResOther =>
        outcome := GiveUp(i, true, course.faults);
      case Reply =>
        outcome := CompleteCreatedAlias(i, true, course.faults);
      case Raised(fault) =>
        outcome := AfterFault(i, fault, course);
    }

    /** jobs.py 1128-1162: a reserve that raised is settled by reading the remote list. */
    method AfterFault(i: nat, fault: Fault, course: Course) returns (outcome: Outcome)
      requires Valid() && AtStage(W(), i, Reserving) && Candidate(items[i]) in owner
      modifies this
      ensures Valid() && old(log) <= log && OnlyRowChanged(i)
      ensures outcome in {Ok, Retry, Stopped, MarkedUnknown, Crashed}
      ensures outcome == Ok ==>
                items[i] == Item(Success, Completed, Created(old(Candidate(items[i]))))
                && old(Candidate(items[i])) in known
      ensures outcome == Retry ==>
                || items[i] == AfterReserveFault(old(items[i]), fault, Absent)
                || items[i] == AfterReserveFault(old(items[i]), fault, Unavailable)
      ensures AfterSending(items[i], old(items[i]), outcome)
      // what the list says decides
      ensures course.lookupAfter == ReadFails ==>
                outcome == Retry && items[i] == AfterReserveFault(old(items[i]), fault, Unavailable)
      ensures course.lookupAfter == ReadStops ==> outcome == Stopped
      ensures course.lookupAfter == Whole && old(Candidate(items[i]) in remote) ==>
                (outcome == Ok <==> course.faults !! COMPLETION)
      ensures course.lookupAfter == Whole && old(Candidate(items[i]) !in remote) ==>
                outcome == Retry
                && items[i] == AfterReserveFault(old(items[i]), fault,
                                                 if old(known <= remote) then Absent else Unavailable)
    {
      var found := LookupCandidate(Candidate(items[i]), course.lookupAfter);
      Interference(course.quiet, "");
      match found
      case Found =>
        outcome := CompleteCreatedAlias(i, true, course.faults);
      case LookupStopped =>
        UpdateBatchItem(i, Reconciling, Queued, false, items[i].result.(wait := NoWait, reconcile := true),
                        ReserveStopped(i));
        outcome := Stopped;
      case _ =>
        Unresolved(i, fault, if found == Missing then Absent else Unavailable);
        outcome := Retry;
    }

    /** Only an explicit rejection of an absent candidate gives the candidate up. */
    method Unresolved(i: nat, fault: Fault, resolution: Resolution)
      requires Valid() && AtStage(W(), i, Reserving)
      requires resolution == Absent ==> Candidate(items[i]) !in remote
      modifies this
      ensures Valid() && old(log) <= log && OnlyRowChanged(i)
      ensures items[i] == AfterReserveFault(old(items[i]), fault, resolution)
      ensures var was := old(items[i]);
              items[i] == if resolution == Absent && fault == Rejected
              then Item(Queued, WaitingRetry, Pending("", false, Transient, was.result.attempts + 1))
              else Item(Queued, WaitingReconcile,
                        Pending(was.result.candidate, true, Transient, was.result.attempts + 1))
    {
      var regenerate := resolution == Absent && fault == Rejected;
      PauseForTransientRetry(i, if regenerate then "" else Candidate(items[i]), !regenerate, Attempts(items[i]),
                             ReserveUnresolved(i, fault, resolution));
    }

    /** _create_alias.  Whatever the answers and wherever the process dies, the rows and the
        remote aliases are those of a legal run, so the promise holds at every exit.  And when all
        goes well the item is done. */
    method CreateAlias(i: nat, course: Course) returns (outcome: Outcome)
      requires Valid() && AtRest(W(), i)
      requires items[i].result.wait == NoWait || items[i].result.wait == CapacityReached
      modifies this
      ensures Valid() && old(log) <= log && OnlyRowChanged(i) && Promise(W())
      ensures Leaves(items[i], outcome, old(Candidate(items[i])))
      ensures outcome == Ok ==> items[i].result.email in known
      ensures course.preflight == OtherError ==> outcome == HandlerEnds(false, course.faults)
      ensures course.preflight == StopRequested && old(!Marked(items[i])) ==> outcome == Stopped
      ensures course.preflight == HmeFault && old(!Marked(items[i])) ==> outcome == Retry
      ensures Smooth(course) && old(!Marked(items[i])) && old(Candidate(items[i]) != "") ==>
                outcome == Ok && items[i] == Item(Success, Completed, Created(old(Candidate(items[i]))))
      ensures Smooth(course) && old(Candidate(items[i]) == "")
              && GoodSuggestion(course.generate, old(owner), old(remote)) ==>
                outcome == Ok && items[i] == Item(Success, Completed, Created(course.generate.email))
      ensures Smooth(course) && old(Marked(items[i])) && course.quiet && course.lookup == Whole ==>
                if old(Candidate(items[i]) in remote || known <= remote)
                then outcome == Ok && items[i] == Item(Success, Completed, Created(old(Candidate(items[i]))))
                else outcome == Retry && Marked(items[i])
    {
      outcome := Visit(i, course);
      EveryRunKeepsPromise(log);
    }

    /** No error before the candidate, no stop, a reply and no fault. */
    predicate Smooth(course: Course) {
      course.preflight == Clear && !course.stop && course.reserve == Reply && course.faults == {}
    }

    method Visit(i: nat, course: Course) returns (outcome: Outcome)
      requires Valid() && AtRest(W(), i)
      requires items[i].result.wait == NoWait || items[i].result.wait == CapacityReached
      modifies this
      ensures Valid() && old(log) <= log && OnlyRowChanged(i)
      ensures Leaves(items[i], outcome, old(Candidate(items[i])))
      ensures outcome == Ok ==> items[i].result.email in known
      ensures course.preflight == OtherError ==> outcome == HandlerEnds(false, course.faults)
      ensures course.preflight == StopRequested && old(!Marked(items[i])) ==>
                outcome == Stopped
                && items[i] == Item(Queued, AtQueued, Pending("", false, NoWait, old(Attempts(items[i]))))
      ensures course.preflight == HmeFault && old(!Marked(items[i])) ==>
                outcome == Retry && items[i] == Parked("", false, old(Attempts(items[i])) + 1)
      ensures Smooth(course) && old(!Marked(items[i])) && old(Candidate(items[i]) != "") ==>
                outcome == Ok && items[i] == Item(Success, Completed, Created(old(Candidate(items[i]))))
      ensures Smooth(course) && old(Candidate(items[i]) == "")
              && GoodSuggestion(course.generate, old(owner), old(remote)) ==>
                outcome == Ok && items[i] == Item(Success, Completed, Created(course.generate.email))
      ensures Smooth(course) && old(Marked(items[i])) && course.quiet && course.lookup == Whole ==>
                if old(Candidate(items[i]) in remote || known <= remote)
                then outcome == Ok && items[i] == Item(Success, Completed, Created(old(Candidate(items[i]))))
                else outcome == Retry && Marked(items[i])
    {
      assert Marked(items[i]) ==> Candidate(items[i]) != "" by { Invariant(); assert RowOk(W(), i, items[i]); }
      assert Candidate(items[i]) != "" ==> items[i].result.wait == NoWait by {
        Invariant();
        assert RowOk(W(), i, items[i]);
      }
      Interference(course.quiet, course.Spare());
      var preflight := BeforeCandidate(items[i], course.preflight);
      if preflight != Clear {
        outcome := EarlyExit(i, preflight, course.faults);
        return;
      }
      if Candidate(items[i]) == "" {
        outcome := ObtainCandidate(i, course);
        if outcome != Ok {
          return;
        }
      }
      outcome := Submit(i, course);
    }

    /** The second half of a visit, once the row has its candidate (jobs.py 1056-1199). */
    method Submit(i: nat, course: Course) returns (outcome: Outcome)
      requires Valid() && AtRest(W(), i) && Candidate(items[i]) != "" && items[i].result.wait == NoWait
      modifies this
      ensures Valid() && old(log) <= log && OnlyRowChanged(i)
      ensures Leaves(items[i], outcome, old(Candidate(items[i])))
      ensures outcome == Ok ==> items[i].result.email in known
      ensures Smooth(course) && old(!Marked(items[i])) ==>
                outcome == Ok && items[i] == Item(Success, Completed, Created(old(Candidate(items[i]))))
      ensures Smooth(course) && old(Marked(items[i])) && course.lookup == Whole ==>
                if old(Candidate(items[i]) in remote || known <= remote)
                then outcome == Ok && items[i] == Item(Success, Completed, Created(old(Candidate(items[i]))))
                else outcome == Retry && Marked(items[i])
    {
      var resolved := false;
      outcome := Ok;
      if Marked(items[i]) {
        outcome, resolved := ReconcileBeforeReserve(i, course);
      }
      if outcome == Ok {
        if !resolved {
          outcome := ReserveAndComplete(i, course);
        }
        if outcome == Ok {
          outcome := AfterSuccess(i, !resolved, course.faults);
        }
      }
    }

    /** The success row is written, and the audit event, the read-back of the alias or closing
        the client can still fail (jobs.py 990-991, 1198-1199); the handler of all other
        exceptions then rewrites the row, whose result stays. */
    method AfterSuccess(i: nat, attempted: bool, faults: set<Point>) returns (outcome: Outcome)
      requires Valid() && i < |items| && items[i].status == Success && items[i].result.Created?
      modifies this
      ensures Valid() && old(log) <= log && OnlyRowChanged(i) && items[i].result == old(items)[i].result
      ensures known == old(known)
      ensures outcome == if DiesAfter in faults then Crashed
                         else if FailsAfter in faults then HandlerEnds(attempted, faults) else Ok
      ensures outcome in {Ok, MarkedUnknown, MarkedFailed, Stopped, Crashed}
      ensures items[i] == if outcome == MarkedUnknown || outcome == MarkedFailed then Late(old(items)[i], attempted)
                          else old(items)[i]
      ensures outcome == MarkedUnknown ==> attempted && items[i].status == Unknown && items[i].stage == AtUnknown
      ensures outcome == MarkedFailed ==> items[i].status == Failed && items[i].stage == AtFailed
      ensures outcome == MarkedFailed || outcome == Stopped ==> !attempted
    {
      if DiesAfter in faults {
        return Crashed;
      }
      if FailsAfter !in faults {
        return Ok;
      }
      outcome := HandlerEnds(attempted, faults);
      if outcome == MarkedUnknown || outcome == MarkedFailed {
        ghost var before := W();
        items := items[i := Late(items[i], attempted)];
        Record(before, LateError(i, attempted));
      }
    }

    /** The handlers of jobs.py 1210-1270 for errors raised before the candidate is read. */
    method EarlyExit(i: nat, p: Preflight, faults: set<Point>) returns (outcome: Outcome)
      requires Valid() && AtRest(W(), i) && p != Clear
      requires p == StopRequested || p == HmeFault ==> !Marked(items[i])
      modifies this
      ensures Valid() && old(log) <= log && OnlyRowChanged(i)
      ensures outcome == if p == StopRequested then Stopped else if p == HmeFault then Retry
                         else HandlerEnds(false, faults)
      ensures outcome in {Retry, Stopped, MarkedFailed, Crashed}
      ensures outcome == Retry ==> items[i] == Parked("", false, old(Attempts(items[i])) + 1)
      ensures outcome == MarkedFailed ==> items[i].status == Failed
      ensures outcome == Stopped ==> items[i].status == Queued
      ensures p == StopRequested ==>
                items[i] == Item(Queued, AtQueued, Pending("", false, NoWait, old(Attempts(items[i]))))
    {
      match p
      case StopRequested =>
        UpdateBatchItem(i, AtQueued, Queued, false, Pending("", false, NoWait, Attempts(items[i])), EarlyStop(i));
        outcome := Stopped;
      case HmeFault =>
        PauseForTransientRetry(i, "", false, Attempts(items[i]), EarlyFault(i));
        outcome := Retry;
      case OtherError =>
        outcome := GiveUp(i, false, faults);
    }

    // -------------------------------------------------------------- around the visits

    /** An item that was asking for a suggestion starts over; one that was being reserved keeps
        its candidate and must be looked up first. */
    static predicate Requeued(was: Item, it: Item) {
      if was.stage == Generating then it == Item(Queued, AtQueued, was.result)
      else it == Item(Queued, Reconciling, Pending(Candidate(was), true, NoWait, Attempts(was)))
    }

    lemma RunningRowsQueue()
      requires Valid()
      ensures forall j: nat | j < |items| && items[j].status == Running :: Requeued(items[j], Recovered(items[j]))
    {
      Invariant();
      forall j: nat | j < |items| && items[j].status == Running ensures Requeued(items[j], Recovered(items[j])) {
        RecoverLeavesWork(W(), j);
        assert RowOk(W(), j, items[j]);
      }
    }

    /** recover_interrupted_batch_jobs: one transaction over all running rows. */
    method RecoverInterrupted()
      requires Valid()
      modifies this
      ensures Valid() && log == old(log) + [Recover]
      ensures |items| == old(|items|)
      ensures forall j: nat | j < |items| :: items[j] == Recovered(old(items)[j]) && items[j].status != Running
      ensures forall j: nat | j < |items| && old(items)[j].status == Running :: items[j].status == Queued
      ensures forall j: nat | j < |items| ::
                if old(items)[j].status == Running then Requeued(old(items)[j], items[j])
                else items[j] == old(items)[j]
    {
      ghost var before := W();
      RunningRowsQueue();
      var k := 0;
      while k < |items|
        invariant k <= |items| == |before.items|
        invariant W() == before.(items := items) && log == old(log)
        invariant forall j: nat | j < k :: items[j] == Recovered(before.items[j])
        invariant forall j: nat | k <= j < |items| :: items[j] == before.items[j]
      {
        if items[k].status == Running {
          items := items[k := Recovered(items[k])];
        }
        k := k + 1;
      }
      assert items == Apply(before, Recover).items;
      Record(before, Recover);
    }

    /** resume_reconcilable_create_job for the rows [lo, hi) of one job: all unknown rows
        become reconcilable, or, if there is none or one lacks a candidate, nothing changes. */
    method ResumeReconcilable(lo: nat, hi: nat) returns (resumed: bool)
      requires Valid() && lo <= hi <= |items|
      modifies this
      ensures Valid() && old(log) <= log && |items| == old(|items|)
      ensures resumed <==>
              && (exists j :: lo <= j < hi && old(items)[j].status == Unknown)
              && (forall j | lo <= j < hi && old(items)[j].status == Unknown :: OneAt(Candidate(old(items)[j])))
      ensures !resumed ==> W() == old(W())
      ensures resumed ==> forall j: nat | j < |items| ::
                  items[j] == if lo <= j < hi && old(items)[j].status == Unknown && old(items)[j].result.Pending?
                  then Item(Queued, Reconciling, old(items)[j].result.(reconcile := true))
                  else old(items)[j]
    {
      ghost var before := W();
      var prepared: set<nat> := {};
      var k := lo;
      while k < hi
        invariant lo <= k <= hi && W() == before && log == old(log)
        invariant forall j :: j in prepared <==> lo <= j < k && items[j].status == Unknown
        invariant forall j | j in prepared :: OneAt(Candidate(items[j]))
      {
        if items[k].status == Unknown {
          if !OneAt(Candidate(items[k])) {
            return false;
          }
          prepared := prepared + {k};
        }
        k := k + 1;
      }
      if prepared == {} {
        return false;
      }
      items := seq(|items|, j requires 0 <= j < |items| reads this =>
        if j in prepared && items[j].result.Pending? then Resumed(items[j]) else items[j]);
      assert items == Apply(before, Resume(prepared)).items;
      Record(before, Resume(prepared));
      ghost var some :| some in prepared;
      return true;
    }

    /** _clear_rate_limit_wait discards the candidate: an explicit rate-limit answer was the
        only way into this wait, so nothing was created. */
    method ClearRateLimitWait(i: nat)
      requires Valid() && AtRest(W(), i) && items[i].result.wait == RateLimited
      modifies this
      ensures Valid() && old(log) <= log && OnlyRowChanged(i)
      ensures items[i] == Item(Queued, AtQueued, Pending("", false, NoWait, old(Attempts(items[i]))))
    {
      UpdateBatchItem(i, AtQueued, Queued, false, Pending("", false, NoWait, Attempts(items[i])), ClearRateLimit(i));
    }

    method ClearTransientWait(i: nat)
      requires Valid() && AtRest(W(), i) && items[i].result.wait == Transient
      modifies this
      ensures Valid() && old(log) <= log && OnlyRowChanged(i)
      ensures items[i] == Unparked(old(items[i]))
      ensures var r := old(items[i]).result;
              items[i] == Item(Queued,
                               if r.reconcile then Reconciling else if r.candidate != "" then Generated else AtQueued,
                               Pending(r.candidate, r.reconcile, NoWait, r.attempts))
      ensures Candidate(items[i]) == old(Candidate(items[i])) && Marked(items[i]) == old(Marked(items[i]))
    {
      var r := items[i].result.(wait := NoWait);
      var stage := if r.reconcile then Reconciling else if r.candidate != "" then Generated else AtQueued;
      UpdateBatchItem(i, stage, Queued, false, r, ClearTransient(i));
    }

    method CreateJob(count: nat)
      requires Valid()
      modifies this
      ensures Valid() && old(log) <= log && items == old(items) + seq(count, _ => NewItem)
    {
      ghost var before := W();
      items := items + seq(count, _ => NewItem);
      made := made + seq(count, _ => 0);
      lost := lost + seq(count, _ => 0);
      Record(before, NewJob(count));
    }

    /** Any life of the gateway: jobs arrive, the worker visits rows in any order and is
        killed anywhere, recovery and operators act, other clients interfere. */
    method Operate(turns: nat)
      requires Valid()
      modifies this
      ensures Valid() && old(log) <= log && Promise(W())
    {
      for turn := 0 to turns
        invariant Valid() && old(log) <= log
      {
        var i: nat, lo: nat, hi: nat, kind: nat := *, *, *, *;
        if kind == 0 {
          CreateJob(i);
        } else if kind == 1 {
          RecoverInterrupted();
        } else if kind == 2 && lo <= hi <= |items| {
          var _ := ResumeReconcilable(lo, hi);
        } else if kind == 3 || i >= |items| || items[i].status != Queued || !items[i].result.Pending? {
          Interference(false, "");
        } else if items[i].result.wait == RateLimited {
          ClearRateLimitWait(i);
        } else if items[i].result.wait == Transient {
          ClearTransientWait(i);
        } else {
          var course: Course := *;
          var _ := CreateAlias(i, course);
        }
      }
      EveryRunKeepsPromise(log);
    }
  }
}
