/** Holding a request open until a code lands: _wait_for_code of icloud_gateway/web.py against the
    watcher thread of icloud_gateway/mailbox_watcher.py and the callbacks of the event loop. */
module LongPoll {

  datatype Result = Found | Exhausted | Scanned

  /** Where the waiting request is. */
  datatype Place =
    | FirstRead
    | CheckReady
    | Subscribe
    | Top
    | Reading
    | Missed
    | Waiting
    | Over(result: Result)

  /** `stored`: the index holds a code that answers this request.
      `added`, `notifying`: the running cycle stored something; the listeners are still to be called.
      `queue`: scheduled calls of event.set.
      `matched`: the running cycle stored an answer.
      `complete`: a cycle that stored an answer came to its end; the answer is there since then.
      `told`: since then event.set ran.  `inTime`: since then the loop saw time left. */
  datatype State = State(
    place: Place, listening: bool, event: bool, queue: nat,
    now: real, deadline: real, remaining: real, timeout: real,
    stored: bool, ready: bool, added: bool, notifying: bool,
    matched: bool, complete: bool, told: bool, inTime: bool)

  datatype Event =
    | WaiterReads
    | WaiterChecksReady
    | WaiterSubscribes(budget: real)
    | WaiterLoops
    | WaiterParks
    | WaiterWakes
    | WaiterTimesOut
    | EventSet
    | StoreAnswer
    | StoreOther
    | EndCycle
    | AbortCycle
    | Notify
    | IndexStale
    | AnswerGone
    | Tick(seconds: real)

  function Initial(now: real): State {
    State(FirstRead, false, false, 0, now, now, 0.0, now, false, false, false, false, false, false, false, false)
  }

  predicate OfWaiter(e: Event) {
    || e.WaiterReads? || e.WaiterChecksReady? || e.WaiterSubscribes?
    || e.WaiterLoops? || e.WaiterParks? || e.WaiterWakes? || e.WaiterTimesOut?
  }

  predicate OfCycle(e: Event) { e.StoreAnswer? || e.StoreOther? || e.EndCycle? || e.AbortCycle? || e.Notify? }

  predicate Enabled(s: State, e: Event) {
    match e
    case WaiterReads => s.place.FirstRead? || s.place.Reading?
    case WaiterChecksReady => s.place.CheckReady?
    case WaiterSubscribes(budget) => s.place.Subscribe?
    case WaiterLoops => s.place.Top?
    case WaiterParks => s.place.Missed?
    case WaiterWakes => s.place.Waiting? && s.event
    case WaiterTimesOut => s.place.Waiting? && s.timeout <= s.now
    case EventSet => s.queue > 0
    case StoreAnswer => !s.notifying
    case StoreOther => !s.notifying
    case EndCycle => !s.notifying
    case AbortCycle => !s.notifying
    case Notify => s.notifying
    case IndexStale => true
    case AnswerGone => true
    case Tick(seconds) => seconds > 0.0
  }

  /** read_indexed_code finds something. */
  predicate Hit(s: State) { s.stored && s.ready }

  function Read(s: State): State {
    if Hit(s) then s.(place := Over(Found), listening := false)
    else s.(place := if s.place.FirstRead? then CheckReady else Missed)
  }

  /** The top of the loop: time check, then clear. */
  function Loop(s: State): State {
    if s.deadline - s.now <= 0.0 then s.(place := Over(Exhausted), listening := false)
    else s.(place := Reading, event := false, remaining := s.deadline - s.now, inTime := s.inTime || s.complete)
  }

  /** A step of _wait_for_code. */
  function WaiterMoves(s: State, e: Event): State {
    match e
    case WaiterReads => Read(s)
    case WaiterChecksReady => s.(place := if s.ready then Subscribe else Over(Scanned))
    case WaiterSubscribes(budget) => s.(place := Top, listening := true, deadline := s.now + budget)
    case WaiterLoops => Loop(s)
    case WaiterParks => s.(place := Waiting, timeout := s.now + s.remaining)
    case WaiterWakes => s.(place := Top)
    case WaiterTimesOut => s.(place := Over(Exhausted), listening := false)
    case _ => s
  }

  /** A step of the watcher thread. */
  function WatcherMoves(s: State, e: Event): State {
    match e
    case StoreAnswer => s.(stored := true, added := true, matched := true)
    case StoreOther => s.(added := true)
    case EndCycle =>
      s.(ready := true, notifying := s.added, added := false, matched := false, complete := s.complete || s.matched)
    case AbortCycle => s.(added := false, matched := false)
    case Notify => s.(notifying := false, queue := if s.listening then s.queue + 1 else s.queue)
    case _ => s
  }

  /** Callbacks, the clock, and the answer leaving the warm index. */
  function RestMoves(s: State, e: Event): State {
    match e
    case EventSet => s.(queue := if s.queue > 0 then s.queue - 1 else 0, event := true, told := s.told || s.complete)
    case IndexStale => s.(ready := false, complete := false, told := false, inTime := false)
    case AnswerGone => s.(stored := false, matched := false, complete := false, told := false, inTime := false)
    case Tick(seconds) => s.(now := s.now + seconds)
    case _ => s
  }

  function Apply(s: State, e: Event): State {
    if OfWaiter(e) then WaiterMoves(s, e) else if OfCycle(e) then WatcherMoves(s, e) else RestMoves(s, e)
  }

  predicate Legal(s: State, run: seq<Event>)
    decreases run
  {
    run == [] || (Enabled(s, run[0]) && Legal(Apply(s, run[0]), run[1..]))
  }

  function Exec(s: State, run: seq<Event>): State
    requires Legal(s, run)
    decreases run
  {
    if run == [] then s else Exec(Apply(s, run[0]), run[1..])
  }

  // ---------------------------------------------------------------- nothing is lost

  predicate Parked(s: State) { s.place.Missed? || s.place.Waiting? }

  /** While a request is parked although a completed cycle stored its answer, a signal is set or
      under way; once event.set ran it is set; and a loop that saw time left is on its way to
      the answer. */
  predicate Inv(s: State) {
    && (s.matched ==> s.stored && s.added)
    && (s.complete ==> Hit(s))
    && (s.place.Top? || s.place.Reading? || Parked(s) ==> s.listening)
    && (s.complete && Parked(s) ==> s.event || s.queue > 0 || s.notifying)
    && (s.told ==> s.complete) && (s.inTime ==> s.complete)
    && (s.told && Parked(s) ==> s.event)
    && (s.inTime ==> s.place.Reading? || s.place == Over(Found))
  }

  lemma WaiterKeeps(s: State, e: Event)
    requires Inv(s) && Enabled(s, e) && OfWaiter(e)
    ensures Inv(Apply(s, e))
  {
    match e
    case WaiterReads =>
    case WaiterChecksReady =>
    case WaiterSubscribes(_) =>
    case WaiterLoops =>
    case WaiterParks =>
    case WaiterWakes =>
    case WaiterTimesOut =>
  }

  lemma CycleKeeps(s: State, e: Event)
    requires Inv(s) && Enabled(s, e) && OfCycle(e)
    ensures Inv(Apply(s, e))
  {}

  lemma RestKeeps(s: State, e: Event)
    requires Inv(s) && Enabled(s, e) && !OfWaiter(e) && !OfCycle(e)
    ensures Inv(Apply(s, e))
  {}

  lemma EventKeeps(s: State, e: Event)
    requires Inv(s) && Enabled(s, e)
    ensures Inv(Apply(s, e))
  {
    if OfWaiter(e) {
      WaiterKeeps(s, e);
    } else if OfCycle(e) {
      CycleKeeps(s, e);
    } else {
      RestKeeps(s, e);
    }
  }

  /** The waiter is never due before the deadline: what is left of its time was measured by the
      check, and the timeout counts from later than that. */
  predicate Timely(s: State) {
    && (s.place.Reading? || s.place.Missed? ==> s.now + s.remaining >= s.deadline)
    && (s.place.Waiting? ==> s.timeout >= s.deadline)
    && (s.place == Over(Exhausted) ==> s.now >= s.deadline)
  }

  /** Others leave the waiter where it is; only time goes by. */
  predicate Same(was: State, now: State) {
    && now.place == was.place && now.listening == was.listening && now.deadline == was.deadline
    && now.remaining == was.remaining && now.timeout == was.timeout && now.now >= was.now
  }

  lemma SameAfter(s: State, e: Event)
    requires Enabled(s, e) && !OfWaiter(e)
    ensures Same(s, Apply(s, e))
  {
    if OfCycle(e) {
      WatcherIsElsewhere(s, e);
    } else {
      match e
      case EventSet =>
      case IndexStale =>
      case AnswerGone =>
      case Tick(_) =>
    }
  }

  lemma WatcherIsElsewhere(s: State, e: Event)
    requires OfCycle(e)
    ensures Same(s, WatcherMoves(s, e))
  {
    match e
    case StoreAnswer =>
    case StoreOther =>
    case EndCycle =>
    case AbortCycle =>
    case Notify =>
  }

  lemma LoopTimely(s: State)
    ensures Timely(Loop(s))
  {
    var t := Loop(s);
    if s.deadline - s.now <= 0.0 {
      assert t.place == Over(Exhausted) && t.now == s.now && t.deadline == s.deadline;
    } else {
      assert t.place == Reading;
      assert t.now == s.now;
      assert t.deadline == s.deadline;
      assert t.remaining == s.deadline - s.now;
    }
  }

  lemma ReadTimely(s: State)
    requires Timely(s) && (s.place.FirstRead? || s.place.Reading?)
    ensures Timely(Read(s))
  {}

  lemma ParkTimely(s: State)
    requires Timely(s) && s.place.Missed?
    ensures Timely(WaiterMoves(s, WaiterParks))
  {}

  lemma EndTimely(s: State)
    requires Timely(s) && s.place.Waiting? && s.timeout <= s.now
    ensures Timely(WaiterMoves(s, WaiterTimesOut))
  {}

  lemma WaiterTimely(s: State, e: Event)
    requires Timely(s) && Enabled(s, e) && OfWaiter(e)
    ensures Timely(WaiterMoves(s, e))
  {
    if e.WaiterLoops? {
      LoopTimely(s);
    } else if e.WaiterReads? {
      ReadTimely(s);
    } else if e.WaiterParks? {
      ParkTimely(s);
    } else if e.WaiterTimesOut? {
      EndTimely(s);
    }
  }

  lemma EventKeepsTimely(s: State, e: Event)
    requires Timely(s) && Enabled(s, e)
    ensures Timely(Apply(s, e))
  {
    if OfWaiter(e) {
      WaiterTimely(s, e);
    } else {
      SameAfter(s, e);
    }
  }

  lemma {:induction false} RunKeeps(s: State, run: seq<Event>)
    requires Inv(s) && Timely(s) && Legal(s, run)
    ensures Inv(Exec(s, run)) && Timely(Exec(s, run))
    decreases run
  {
    if run != [] {
      EventKeeps(s, run[0]);
      EventKeepsTimely(s, run[0]);
      RunKeeps(Apply(s, run[0]), run[1..]);
    }
  }

  /** The listener is registered while the loop runs, and taken away at every end. */
  predicate Tidy(s: State) {
    s.listening <==> s.place.Top? || s.place.Reading? || Parked(s)
  }

  lemma LoopTidy(s: State)
    requires Tidy(s) && s.place.Top?
    ensures Tidy(Loop(s))
  {
    var t := Loop(s);
    if s.deadline - s.now <= 0.0 {
      assert t.place == Over(Exhausted) && !t.listening;
    } else {
      assert t.place == Reading && t.listening == s.listening;
    }
  }

  lemma ReadTidy(s: State)
    requires Tidy(s) && (s.place.FirstRead? || s.place.Reading?)
    ensures Tidy(Read(s))
  {}

  lemma WaiterTidy(s: State, e: Event)
    requires Tidy(s) && Enabled(s, e) && OfWaiter(e)
    ensures Tidy(WaiterMoves(s, e))
  {
    match e
    case WaiterReads => ReadTidy(s);
    case WaiterChecksReady =>
    case WaiterSubscribes(_) =>
    case WaiterLoops => LoopTidy(s);
    case WaiterParks =>
    case WaiterWakes =>
    case WaiterTimesOut =>
  }

  lemma EventKeepsTidy(s: State, e: Event)
    requires Tidy(s) && Enabled(s, e)
    ensures Tidy(Apply(s, e))
  {
    if OfWaiter(e) {
      WaiterTidy(s, e);
    } else {
      SameAfter(s, e);
    }
  }

  lemma {:induction false} RunKeepsTidy(s: State, run: seq<Event>)
    requires Tidy(s) && Legal(s, run)
    ensures Tidy(Exec(s, run))
    decreases run
  {
    if run != [] {
      EventKeepsTidy(s, run[0]);
      RunKeepsTidy(Apply(s, run[0]), run[1..]);
    }
  }

  /** No signal is set or under way. */
  predicate Silent(s: State) {
    !s.event && s.queue == 0 && !s.notifying && !s.added
  }

  /** The waiter is woken by new mail only: as long as nothing is stored, nothing is signalled, and
      a parked request has no step but its timeout. */
  lemma {:induction false} OnlyMailWakes(s: State, run: seq<Event>)
    requires Silent(s) && Legal(s, run) && forall e | e in run :: !e.StoreAnswer? && !e.StoreOther?
    ensures Silent(Exec(s, run)) && !Enabled(Exec(s, run), WaiterWakes)
    decreases run
  {
    if run != [] {
      SilentAfter(s, run[0]);
      OnlyMailWakes(Apply(s, run[0]), run[1..]);
    }
  }

  lemma SilentAfter(s: State, e: Event)
    requires Silent(s) && Enabled(s, e) && !e.StoreAnswer? && !e.StoreOther?
    ensures Silent(Apply(s, e))
  {
    if OfWaiter(e) {
      match e
      case WaiterReads =>
      case WaiterChecksReady =>
      case WaiterSubscribes(_) =>
      case WaiterLoops =>
      case WaiterParks =>
      case WaiterWakes =>
      case WaiterTimesOut =>
    }
  }

  /** No lost wakeup, in every interleaving: after event.set of a completed cycle ran the waiter
      is not asleep; it never gives up before the deadline, and not at all once the loop saw
      time left since that cycle. */
  lemma NoLostWakeup(now: real, run: seq<Event>)
    requires Legal(Initial(now), run)
    ensures var s := Exec(Initial(now), run);
            && (s.told && s.place.Waiting? ==> Enabled(s, WaiterWakes))
            && (s.complete && s.place.Waiting? ==> s.event || s.queue > 0 || s.notifying)
            && (s.place == Over(Exhausted) ==> s.now >= s.deadline && !s.inTime)
  {
    RunKeeps(Initial(now), run);
  }

  /** How many of its own steps a told waiter is away from its end. */
  function Rank(p: Place): nat {
    match p
    case FirstRead => 7
    case CheckReady => 6
    case Subscribe => 5
    case Missed => 4
    case Waiting => 3
    case Top => 2
    case Reading => 1
    case Over(_) => 0
  }

  lemma WaiterAdvances(s: State, e: Event)
    requires Inv(s) && s.told && Enabled(s, e) && OfWaiter(e)
    ensures Rank(WaiterMoves(s, e).place) < Rank(s.place)
  {
    match e
    case WaiterReads =>
    case WaiterChecksReady =>
    case WaiterSubscribes(_) =>
    case WaiterLoops =>
    case WaiterParks =>
    case WaiterWakes =>
    case WaiterTimesOut =>
  }

  /** A told waiter always has a step to take, each of its steps brings it nearer to the end, and
      no step of anybody else pushes it back. */
  lemma ToldAdvances(s: State, e: Event)
    requires Inv(s) && s.told && !s.place.Over?
    ensures s.place.Waiting? ==> Enabled(s, WaiterWakes)
    ensures Enabled(s, e) && OfWaiter(e) ==> Rank(Apply(s, e).place) < Rank(s.place)
    ensures Enabled(s, e) && !OfWaiter(e) ==> Apply(s, e).place == s.place
  {
    if Enabled(s, e) {
      if OfWaiter(e) {
        WaiterAdvances(s, e);
      } else {
        SameAfter(s, e);
      }
    }
  }

  /** Whether the answer is read is decided at the first time check after the cycle: with time
      left the request ends with the code, whatever happens before its read short of the code
      leaving the index; without, it ends empty-handed. */
  lemma {:induction false} FirstCheckDecides(s: State, between: seq<Event>)
    requires Inv(s) && s.complete && s.place.Top?
    requires Legal(Loop(s), between)
    requires forall e | e in between :: !OfWaiter(e) && !e.IndexStale? && !e.AnswerGone?
    ensures var t := Exec(Loop(s), between);
            if s.now < s.deadline then Enabled(t, WaiterReads) && Apply(t, WaiterReads).place == Over(Found)
            else t.place == Over(Exhausted)
  {
    EventKeeps(s, WaiterLoops);
    OthersKeep(Loop(s), between);
  }

  lemma OtherKeeps(s: State, e: Event)
    requires Enabled(s, e) && !OfWaiter(e) && !e.IndexStale? && !e.AnswerGone?
    ensures Apply(s, e).place == s.place && (s.complete ==> Apply(s, e).complete)
  {
    SameAfter(s, e);
    if OfCycle(e) {
      WatcherCompletes(s, e);
    }
  }

  lemma WatcherCompletes(s: State, e: Event)
    requires OfCycle(e)
    ensures s.complete ==> WatcherMoves(s, e).complete
  {
    match e
    case StoreAnswer =>
    case StoreOther =>
    case EndCycle =>
    case AbortCycle =>
    case Notify =>
  }

  lemma {:induction false} OthersKeep(s: State, between: seq<Event>)
    requires Inv(s) && Legal(s, between)
    requires forall e | e in between :: !OfWaiter(e) && !e.IndexStale? && !e.AnswerGone?
    ensures Exec(s, between).place == s.place && (s.complete ==> Hit(Exec(s, between)))
    decreases between
  {
    if between != [] {
      assert between[0] in between;
      EventKeeps(s, between[0]);
      OtherKeeps(s, between[0]);
      OthersKeep(Apply(s, between[0]), between[1..]);
    }
  }

  /** The waiter is past its subscription and not at its end. */
  predicate InLoop(s: State) { s.place.Top? || s.place.Reading? || Parked(s) }

  /** The answer stays in the warm index. */
  predicate Clean(run: seq<Event>) { forall e | e in run :: !e.IndexStale? && !e.AnswerGone? }

  /** Some time check of the run sees time left. */
  predicate SeesTime(s: State, run: seq<Event>)
    requires Legal(s, run)
    decreases run
  {
    run != [] && ((run[0].WaiterLoops? && s.now < s.deadline) || SeesTime(Apply(s, run[0]), run[1..]))
  }

  /** A step of the waiter inside the loop once the answer is there. */
  lemma LoopStep(s: State, e: Event)
    requires Inv(s) && s.complete && InLoop(s) && Enabled(s, e) && OfWaiter(e)
    ensures Apply(s, e).complete
    ensures s.place.Reading? ==> Apply(s, e).place == Over(Found)
    ensures s.place.Top? ==>
              e.WaiterLoops? && Apply(s, e).place == if s.now < s.deadline then Reading else Over(Exhausted)
    ensures Parked(s) ==> Apply(s, e).place in {Top, Waiting, Over(Exhausted)} && !e.WaiterLoops?
  {
    match e
    case WaiterReads =>
    case WaiterLoops =>
    case WaiterParks =>
    case WaiterWakes =>
    case WaiterTimesOut =>
  }

  lemma WaiterEnds(s: State, e: Event)
    requires s.place.Over?
    ensures Enabled(s, e) ==> !OfWaiter(e)
  {}

  lemma {:induction false} OverStays(s: State, run: seq<Event>)
    requires s.place.Over? && Legal(s, run)
    ensures Exec(s, run).place == s.place && !SeesTime(s, run)
    decreases run
  {
    if run != [] {
      WaiterEnds(s, run[0]);
      SameAfter(s, run[0]);
      OverStays(Apply(s, run[0]), run[1..]);
    }
  }

  /** The whole of it: once a cycle that stored the answer is complete, a request that waits in
      its loop ends with the answer if and only if a time check after that sees time left, or one
      before it did and the read is still to come. */
  lemma {:induction false} AnsweredIff(s: State, run: seq<Event>)
    requires Inv(s) && s.complete && InLoop(s) && Legal(s, run) && Clean(run) && Exec(s, run).place.Over?
    ensures Exec(s, run).place == Over(Found) <==> s.place.Reading? || SeesTime(s, run)
    decreases run
  {
    var e, t := run[0], Apply(s, run[0]);
    assert e in run && Clean(run[1..]);
    if OfWaiter(e) {
      LoopStep(s, e);
    } else {
      OtherKeeps(s, e);
    }
    if t.place.Over? {
      OverStays(t, run[1..]);
    } else {
      EventKeeps(s, e);
      AnsweredIff(t, run[1..]);
    }
  }

  /** Every step of the waiter is taken before the deadline. */
  predicate Prompt(s: State, run: seq<Event>)
    requires Legal(s, run)
    decreases run
  {
    run == [] || ((OfWaiter(run[0]) ==> s.now < s.deadline) && Prompt(Apply(s, run[0]), run[1..]))
  }

  /** So a waiter that gets its turns before the deadline reads the answer: it neither sleeps
      nor gives up. */
  lemma {:induction false} PromptIsAnswered(s: State, run: seq<Event>)
    requires Inv(s) && Timely(s) && s.complete && InLoop(s) && Legal(s, run) && Clean(run)
    requires Prompt(s, run) && Exec(s, run).place.Over?
    ensures Exec(s, run).place == Over(Found)
    decreases run
  {
    var e, t := run[0], Apply(s, run[0]);
    assert e in run && Clean(run[1..]);
    if OfWaiter(e) {
      LoopStep(s, e);
      NoEarlyEnd(s, e);
    } else {
      OtherKeeps(s, e);
    }
    EventKeepsTimely(s, e);
    if t.place.Over? {
      OverStays(t, run[1..]);
    } else {
      EventKeeps(s, e);
      PromptIsAnswered(t, run[1..]);
    }
  }

  /** No step before the deadline gives up. */
  lemma NoEarlyEnd(s: State, e: Event)
    requires Timely(s) && Enabled(s, e) && s.now < s.deadline && InLoop(s) && OfWaiter(e)
    ensures Apply(s, e).place != Over(Exhausted)
  {
    match e
    case WaiterReads =>
    case WaiterLoops =>
    case WaiterParks =>
    case WaiterWakes =>
    case WaiterTimesOut =>
  }

  lemma {:induction false} LegalAppend(s: State, run: seq<Event>, e: Event)
    requires Legal(s, run) && Enabled(Exec(s, run), e)
    ensures Legal(s, run + [e]) && Exec(s, run + [e]) == Apply(Exec(s, run), e)
    decreases run
  {
    if run == [] {
      assert run + [e] == [e];
    } else {
      LegalAppend(Apply(s, run[0]), run[1..], e);
      assert (run + [e])[1..] == run[1..] + [e];
    }
  }

  /** One more event of a run under construction. */
  lemma Then(s: State, run: seq<Event>, e: Event) returns (longer: seq<Event>)
    requires Legal(s, run) && Enabled(Exec(s, run), e)
    ensures longer == run + [e] && Legal(s, longer) && Exec(s, longer) == Apply(Exec(s, run), e)
  {
    longer := run + [e];
    LegalAppend(s, run, e);
  }

  lemma AfterPark(budget: real) returns (run: seq<Event>)
    requires budget > 1.0
    ensures Legal(Initial(0.0), run)
    ensures Exec(Initial(0.0), run)
         == State(Waiting, true, false, 0, 0.0, budget, budget, budget, false, true, false, false, false, false, false,
                  false)
  {
    run := Then(Initial(0.0), [], EndCycle);
    run := Then(Initial(0.0), run, WaiterReads);
    run := Then(Initial(0.0), run, WaiterChecksReady);
    run := Then(Initial(0.0), run, WaiterSubscribes(budget));
    run := Then(Initial(0.0), run, WaiterLoops);
    run := Then(Initial(0.0), run, WaiterReads);
    run := Then(Initial(0.0), run, WaiterParks);
  }

  /** So a set before the deadline is not quite enough: here event.set runs one second before the
      deadline, the waiter resumes a second after it and gives up without reading the answer. */
  lemma LateCheckMisses(budget: real) returns (early: seq<Event>, late: seq<Event>)
    requires budget > 1.0
    ensures Legal(Initial(0.0), early) && early != [] && early[|early| - 1] == EventSet
    ensures var s := Exec(Initial(0.0), early);
            && s.told && s.place.Waiting? && s.now == s.deadline - 1.0
            && Legal(s, late) && Hit(Exec(s, late)) && Exec(s, late).place == Over(Exhausted)
  {
    early := AfterPark(budget);
    early := Then(Initial(0.0), early, StoreAnswer);
    early := Then(Initial(0.0), early, EndCycle);
    early := Then(Initial(0.0), early, Notify);
    early := Then(Initial(0.0), early, Tick(budget - 1.0));
    early := Then(Initial(0.0), early, EventSet);
    var s := Exec(Initial(0.0), early);
    late := Then(s, [], Tick(2.0));
    late := Then(s, late, WaiterWakes);
    late := Then(s, late, WaiterLoops);
  }

  // ---------------------------------------------------------------- the request itself

  /** One request in its world.  The log makes every outcome the outcome of a legal run, so what
      is proved of runs holds of it. */
  class Request {
    var s: State
    ghost const started: real
    ghost var log: seq<Event>

    ghost predicate Valid()
      reads this
    {
      Legal(Initial(started), log) && Exec(Initial(started), log) == s
    }

    constructor (now: real)
      ensures Valid() && s == Initial(now) && started == now
    {
      s, started, log := Initial(now), now, [];
    }

    method Do(e: Event)
      requires Valid() && Enabled(s, e)
      modifies this
      ensures Valid() && s == Apply(old(s), e)
    {
      LegalAppend(Initial(started), log, e);
      s, log := Apply(s, e), log + [e];
    }

    /** Whatever the watcher thread, the callbacks and the clock do while the request awaits. */
    method Meanwhile()
      requires Valid()
      modifies this
      ensures Valid() && Same(old(s), s)
    {
      var steps: int := *;
      for i := 0 to if steps < 0 then 0 else steps
        invariant Valid() && Same(old(s), s)
      {
        var e: Event := *;
        if !OfWaiter(e) && Enabled(s, e) {
          SameAfter(s, e);
          Do(e);
        }
      }
    }

    /** _wait_for_code; the environment wakes it at most `wakes` times and then lets time pass. */
    method WaitForCode(budget: real, wakes: nat) returns (result: Result)
      requires Valid() && s.place.FirstRead?
      modifies this
      ensures Valid() && s.place == Over(result)
      ensures !s.listening
      ensures result == Exhausted ==> s.now >= s.deadline && !s.inTime
      ensures result == Exhausted ==> s.now >= old(s.now) + budget
      ensures result == Found ==> s.stored && s.ready
      ensures result == Scanned ==> !s.ready
    {
      BeforeLoop(budget);
      if s.place.Top? {
        WaitLoop(wakes);
      }
      RunKeeps(Initial(started), log);
      RunKeepsTidy(Initial(started), log);
      return s.place.result;
    }

    /** A first read, and without a warm index the scan instead. */
    method BeforeLoop(budget: real)
      requires Valid() && s.place.FirstRead?
      modifies this
      ensures Valid() && (s.place.Top? || s.place == Over(Found) || s.place == Over(Scanned))
      ensures s.place.Top? ==> s.deadline >= old(s.now) + budget
      ensures s.place == Over(Found) ==> s.stored && s.ready
      ensures s.place == Over(Scanned) ==> !s.ready
    {
      Meanwhile();
      ReadFirst();
      if s.place.CheckReady? {
        AfterMiss(budget);
      }
    }

    method ReadFirst()
      requires Valid() && s.place.FirstRead?
      modifies this
      ensures Valid() && s.place in {CheckReady, Over(Found)} && s.now == old(s.now)
      ensures s.place == Over(Found) ==> s.stored && s.ready
    {
      Do(WaiterReads);
    }

    method AfterMiss(budget: real)
      requires Valid() && s.place.CheckReady?
      modifies this
      ensures Valid() && (s.place.Top? || s.place == Over(Scanned)) && s.now >= old(s.now)
      ensures s.place.Top? ==> s.deadline >= old(s.now) + budget
      ensures s.place == Over(Scanned) ==> !s.ready
    {
      Meanwhile();
      Do(WaiterChecksReady);
      if s.place.Subscribe? {
        Do(WaiterSubscribes(budget));
      }
    }

    /** Its loop. */
    method WaitLoop(wakes: nat)
      requires Valid() && s.place.Top?
      modifies this
      ensures Valid() && s.place in {Over(Found), Over(Exhausted)} && s.deadline == old(s.deadline)
      ensures s.place == Over(Found) ==> s.stored && s.ready
    {
      var left := wakes;
      while s.place.Top?
        invariant Valid() && s.place in {Top, Over(Found), Over(Exhausted)} && s.deadline == old(s.deadline)
        invariant s.place == Over(Found) ==> s.stored && s.ready
        decreases left, s.place.Top?
      {
        CheckAndRead();
        if s.place.Missed? {
          left := Park(left);
        }
      }
    }

    method CheckAndRead()
      requires Valid() && s.place.Top?
      modifies this
      ensures Valid() && s.place in {Missed, Over(Found), Over(Exhausted)} && s.deadline == old(s.deadline)
      ensures s.place == Over(Found) ==> s.stored && s.ready
    {
      CheckTime();
      if s.place.Reading? {
        Meanwhile();
        ReadAgain();
      }
    }

    method CheckTime()
      requires Valid() && s.place.Top?
      modifies this
      ensures Valid() && s.place == if old(s).deadline - old(s).now <= 0.0 then Over(Exhausted) else Reading
      ensures s.deadline == old(s.deadline)
      ensures s.inTime <==> old(s.inTime) || (old(s.complete) && s.place.Reading?)
    {
      Do(WaiterLoops);
    }

    method ReadAgain()
      requires Valid() && s.place.Reading?
      modifies this
      ensures Valid() && s.place == if Hit(old(s)) then Over(Found) else Missed
      ensures s.deadline == old(s.deadline) && s.stored == old(s.stored) && s.ready == old(s.ready)
    {
      Do(WaiterReads);
    }

    /** Awaiting the event until the timeout computed before the read. */
    method Park(wakes: nat) returns (left: nat)
      requires Valid() && s.place.Missed?
      modifies this
      ensures Valid() && ((s.place.Top? && left < wakes) || (s.place == Over(Exhausted) && left == wakes))
      ensures s.place.Top? ==> s.event
      ensures s.place.Over? ==> s.now >= old(s).now + old(s).remaining && (wakes == 0 || !s.event)
      ensures s.deadline == old(s.deadline)
    {
      Do(WaiterParks);
      Meanwhile();
      if wakes > 0 && s.event {
        Do(WaiterWakes);
        return wakes - 1;
      }
      if s.now < s.timeout {
        Do(Tick(s.timeout - s.now));
      }
      Do(WaiterTimesOut);
      return wakes;
    }
  }
}
