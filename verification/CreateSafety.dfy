/** Safety of the create-alias protocol over every run, and the one way round it. */
module CreateSafety {
  import opened CreateProtocol

  // ---------------------------------------------------------------- one event

  /** Rewriting one row keeps the invariant when the new row fits the item's live aliases. */
  lemma PutKeeps(w: World, i: nat, it: Item)
    requires Inv(w) && i < |w.items| && RowOk(w, i, it)
    ensures Inv(Put(w, i, it))
  {
    var w' := Put(w, i, it);
    forall j: nat | j < |w'.items|
      ensures RowOk(w', j, w'.items[j]) && w'.made[j] == w'.lost[j] + |Live(w', j)|
    {
      assert Live(w', j) == Live(w, j);
      assert RowOk(w, j, w.items[j]);
    }
  }

  predicate OneRow(e: Event) {
    !e.Recover? && !e.Resume? && !e.NewJob? && !e.RemoteAdded? && !e.RemoteRemoved?
    && !e.LocalSynced? && !e.LocalForgot? && !e.ReserveApplied? && !e.RecordLocal? && !e.SaveCandidate? && !e.LateError?
  }

  lemma RowAfterOk(w: World, e: Event)
    requires Enabled(w, e) && OneRow(e) && RowOk(w, e.i, w.items[e.i])
    ensures RowOk(w, e.i, RowAfter(w.items[e.i], e))
  {}

  lemma OneRowIsPut(w: World, e: Event)
    requires Enabled(w, e) && OneRow(e)
    ensures e.i < |w.items| && Apply(w, e) == Put(w, e.i, RowAfter(w.items[e.i], e))
  {}

  lemma OneRowKeeps(w: World, e: Event)
    requires Inv(w) && Enabled(w, e) && OneRow(e)
    ensures Inv(Apply(w, e))
  {
    OneRowIsPut(w, e);
    assert RowOk(w, e.i, w.items[e.i]);
    RowAfterOk(w, e);
    PutKeeps(w, e.i, RowAfter(w.items[e.i], e));
  }

  lemma LateErrorKeeps(w: World, e: Event)
    requires Inv(w) && Enabled(w, e) && e.LateError?
    ensures Inv(Apply(w, e))
  {
    assert RowOk(w, e.i, w.items[e.i]);
    PutKeeps(w, e.i, Late(w.items[e.i], e.attempted));
  }

  lemma SaveCandidateKeeps(w: World, e: Event)
    requires Inv(w) && Enabled(w, e) && e.SaveCandidate?
    ensures Inv(Apply(w, e))
  {
    var i, c := e.i, e.c;
    var v := w.(owner := w.owner[c := i]);
    forall j: nat | j < |v.items|
      ensures RowOk(v, j, v.items[j]) && v.made[j] == v.lost[j] + |Live(v, j)|
    {
      assert Live(v, j) == Live(w, j);
      assert RowOk(w, j, w.items[j]);
    }
    assert RowOk(w, i, w.items[i]);
    PutKeeps(v, i, RowAfter(w.items[i], e));
  }

  lemma LiveWith(w: World, c: Email, w': World, j: nat)
    requires c in w.owner && c !in w.remote && w'.owner == w.owner && w'.remote == w.remote + {c}
    ensures |Live(w', j)| == |Live(w, j)| + if w.owner[c] == j then 1 else 0
  {
    assert Live(w', j) == Live(w, j) + if w.owner[c] == j then {c} else {};
  }

  lemma LiveWithout(w: World, a: Email, w': World, j: nat)
    requires a in w.remote && w'.owner == w.owner && w'.remote == w.remote - {a}
    ensures |Live(w', j)| == |Live(w, j)| - if a in w.owner && w.owner[a] == j then 1 else 0
  {
    assert Live(w, j) == Live(w', j) + if a in w.owner && w.owner[a] == j then {a} else {};
  }

  lemma ReserveAppliedKeeps(w: World, e: Event)
    requires Inv(w) && Enabled(w, e) && e.ReserveApplied?
    ensures Inv(Apply(w, e))
  {
    var i, w' := e.i, Apply(w, e);
    var c := Candidate(w.items[i]);
    assert RowOk(w, i, w.items[i]);
    forall j: nat | j < |w'.items|
      ensures RowOk(w', j, w'.items[j]) && w'.made[j] == w'.lost[j] + |Live(w', j)|
    {
      assert RowOk(w, j, w.items[j]);
      LiveWith(w, c, w', j);
    }
  }

  lemma RemoteRemovedKeeps(w: World, e: Event)
    requires Inv(w) && Enabled(w, e) && e.RemoteRemoved?
    ensures Inv(Apply(w, e))
  {
    var a, w' := e.e, Apply(w, e);
    forall j: nat | j < |w'.items|
      ensures RowOk(w', j, w'.items[j]) && w'.made[j] == w'.lost[j] + |Live(w', j)|
    {
      assert RowOk(w, j, w.items[j]);
      LiveWithout(w, a, w', j);
    }
  }

  lemma RecoverKeeps(w: World, e: Event)
    requires Inv(w) && e.Recover?
    ensures Inv(Apply(w, e))
  {
    var w' := Apply(w, e);
    forall j: nat | j < |w'.items|
      ensures RowOk(w', j, w'.items[j]) && w'.made[j] == w'.lost[j] + |Live(w', j)|
    {
      assert RowOk(w, j, w.items[j]);
      assert Live(w', j) == Live(w, j);
    }
  }

  lemma ResumeKeeps(w: World, e: Event)
    requires Inv(w) && Enabled(w, e) && e.Resume?
    ensures Inv(Apply(w, e))
  {
    var w' := Apply(w, e);
    forall j: nat | j < |w'.items|
      ensures RowOk(w', j, w'.items[j]) && w'.made[j] == w'.lost[j] + |Live(w', j)|
    {
      assert RowOk(w, j, w.items[j]);
      assert Live(w', j) == Live(w, j);
    }
  }

  lemma NewJobKeeps(w: World, e: Event)
    requires Inv(w) && e.NewJob?
    ensures Inv(Apply(w, e))
  {
    var w' := Apply(w, e);
    forall j: nat | j < |w'.items|
      ensures RowOk(w', j, w'.items[j]) && w'.made[j] == w'.lost[j] + |Live(w', j)|
    {
      assert Live(w', j) == Live(w, j);
      if j < |w.items| {
        assert RowOk(w, j, w.items[j]);
      } else {
        assert Live(w', j) == {};
      }
    }
  }

  /** What happens to addresses nobody suggested, or in the local table, does not matter. */
  lemma Reframe(w: World, w': World)
    requires Inv(w)
    requires w' == w.(known := w'.known, remote := w'.remote)
    requires forall e | e in w.owner :: e in w'.remote <==> e in w.remote
    ensures Inv(w')
  {
    forall j: nat | j < |w'.items|
      ensures RowOk(w', j, w'.items[j]) && w'.made[j] == w'.lost[j] + |Live(w', j)|
    {
      assert Live(w', j) == Live(w, j);
      assert RowOk(w, j, w.items[j]);
    }
  }

  lemma OutsideKeeps(w: World, e: Event)
    requires Inv(w) && Enabled(w, e)
    requires e.RemoteAdded? || e.LocalSynced? || e.LocalForgot? || e.RecordLocal?
    ensures Inv(Apply(w, e))
  {
    Reframe(w, Apply(w, e));
  }

  lemma TableWideKeeps(w: World, e: Event)
    requires Inv(w) && Enabled(w, e) && (e.Recover? || e.Resume? || e.NewJob?)
    ensures Inv(Apply(w, e))
  {
    if e.Recover? {
      RecoverKeeps(w, e);
    } else if e.Resume? {
      ResumeKeeps(w, e);
    } else {
      NewJobKeeps(w, e);
    }
  }

  /** Every event, of the worker or of anybody else, keeps the invariant. */
  lemma EventKeeps(w: World, e: Event)
    requires Inv(w) && Enabled(w, e)
    ensures Inv(Apply(w, e))
  {
    if OneRow(e) {
      OneRowKeeps(w, e);
    } else if e.LateError? {
      LateErrorKeeps(w, e);
    } else if e.SaveCandidate? {
      SaveCandidateKeeps(w, e);
    } else if e.ReserveApplied? {
      ReserveAppliedKeeps(w, e);
    } else if e.RemoteRemoved? {
      RemoteRemovedKeeps(w, e);
    } else if e.Recover? || e.Resume? || e.NewJob? {
      TableWideKeeps(w, e);
    } else {
      OutsideKeeps(w, e);
    }
  }

  // ---------------------------------------------------------------- every run

  lemma {:induction false} RunKeeps(w: World, es: seq<Event>)
    requires Inv(w) && Legal(w, es)
    ensures Inv(Exec(w, es))
    decreases |es|
  {
    if es != [] {
      EventKeeps(w, es[0]);
      RunKeeps(Apply(w, es[0]), es[1..]);
    }
  }

  lemma {:induction false} RunsConcatenate(w: World, es: seq<Event>, fs: seq<Event>)
    requires Legal(w, es) && Legal(Exec(w, es), fs)
    ensures Legal(w, es + fs) && Exec(w, es + fs) == Exec(Exec(w, es), fs)
    decreases |es|
  {
    if es == [] {
      assert es + fs == fs;
    } else {
      assert (es + fs)[0] == es[0] && (es + fs)[1..] == es[1..] + fs;
      RunsConcatenate(Apply(w, es[0]), es[1..], fs);
    }
  }

  lemma AtMostOne(s: set<Email>, c: Email)
    requires s <= {c}
    ensures |s| <= 1 && (s != {} ==> s == {c})
  {
    assert s == {} || s == {c};
  }

  lemma InvGivesPromise(w: World)
    requires Inv(w)
    ensures Promise(w)
  {
    forall i: nat | i < |w.items| ensures ItemPromise(w, i) {
      var it := w.items[i];
      assert RowOk(w, i, it);
      var c := if it.result.Created? then it.result.email else it.result.candidate;
      assert Live(w, i) <= {c};
      AtMostOne(Live(w, i), c);
      if it.result.Created? && w.lost[i] == 0 {
        assert c in w.ever && w.made[w.owner[c]] >= 1;
      }
      if it.status == Queued && Live(w, i) != {} {
        NotBlank(w, i, c);
      }
    }
  }

  lemma NotBlank(w: World, i: nat, c: Email)
    requires Books(w) && c in Live(w, i)
    ensures c != "" && c in w.remote
  {
    assert OneAt(c);
  }

  /** The main theorem: whatever jobs are created and in whatever order the worker, crashes,
      recovery, operators and the outside world act, every row keeps its promise. */
  lemma EveryRunKeepsPromise(es: seq<Event>)
    requires Legal(Empty, es)
    ensures Promise(Exec(Empty, es))
  {
    RunKeeps(Empty, es);
    InvGivesPromise(Exec(Empty, es));
  }

  /** With no alias removed behind the worker's back, an item is reserved at most once,
      however often its visit is interrupted and repeated. */
  lemma OneReserveTakesEffect(es: seq<Event>, i: nat)
    requires Legal(Empty, es) && i < |Exec(Empty, es).items|
    ensures Promise(Exec(Empty, es))
    ensures Exec(Empty, es).lost[i] == 0 ==> Exec(Empty, es).made[i] <= 1
  {
    EveryRunKeepsPromise(es);
    assert ItemPromise(Exec(Empty, es), i);
  }

  /** Recovering twice is recovering once. */
  lemma RecoverIdempotent(w: World)
    requires Inv(w)
    ensures Apply(Apply(w, Recover), Recover) == Apply(w, Recover)
  {
    var v := Apply(w, Recover);
    forall j: nat | j < |v.items| ensures Recovered(v.items[j]) == v.items[j] {
      assert RowOk(w, j, w.items[j]);
    }
    assert Apply(v, Recover).items == v.items;
  }

  /** After recovery no row is running, and no row became unknown: every interrupted create
      item can continue. */
  lemma RecoverLeavesWork(w: World, j: nat)
    requires Inv(w) && j < |w.items| && w.items[j].status == Running
    ensures Apply(w, Recover).items[j].status == Queued
    ensures w.items[j].stage == Reserving ==> Marked(Apply(w, Recover).items[j])
  {
    assert RowOk(w, j, w.items[j]);
    if w.items[j].stage == Reserving {
      assert OneAt(Candidate(w.items[j]));
    }
  }

  // ---------------------------------------------------------------- the excluded handler

  /** A world with one row `it`, whose candidate exists remotely but not yet locally. */
  function OnlyRow(it: Item): World {
    var c := Candidate(it);
    World([it], {}, {c}, map[c := 0], {c}, [1], [0])
  }

  function Early(stop: bool, i: nat): Event { if stop then EarlyStop(i) else EarlyFault(i) }

  /** Errors raised before the saved candidate is read reach handlers that write the row
      back without candidate and mark (jobs.py lines 1002-1011 with 1210-1252).  Whatever
      the service did, the promise survives such a write exactly when the row carries no
      reconcile mark: the worker can tell from the row alone. */
  lemma EarlyErrorSafeIff(it: Item, stop: bool)
    requires it.result.Pending? && it.status == Queued && OneAt(it.result.candidate) && it.result.wait == NoWait
    ensures (forall w, i: nat | Inv(w) && i < |w.items| && w.items[i] == it :: Promise(Apply(w, Early(stop, i))))
       <==> !it.result.reconcile
  {
    if it.result.reconcile {
      var w := OnlyRow(it);
      var c := Candidate(it);
      assert Live(w, 0) == {c};
      assert RowOk(w, 0, it);
      assert Inv(w);
      var w' := Apply(w, Early(stop, 0));
      assert Live(w', 0) == {c};
      assert w'.items[0].status == Queued && !Marked(w'.items[0]);
      assert !ItemPromise(w', 0);
      assert !Promise(w');
    } else {
      forall w, i: nat | Inv(w) && i < |w.items| && w.items[i] == it ensures Promise(Apply(w, Early(stop, i))) {
        EventKeeps(w, Early(stop, i));
        InvGivesPromise(Apply(w, Early(stop, i)));
      }
    }
  }

  function ReserveVisit(c: Email): seq<Event> {
    [StartGenerate(0), SaveCandidate(0, c), StartReserve(0), ReserveApplied(0)]
  }

  function LostReplyVisit(c: Email): seq<Event> {
    [NewJob(1)] + (ReserveVisit(c) + [ReserveUnresolved(0, Network, Unavailable), ClearTransient(0)])
  }

  function OneItem(it: Item, remote: set<Email>, owner: map<Email, nat>, made: nat): World {
    World([it], {}, remote, owner, remote, [made], [0])
  }

  lemma StepRun(w: World, e: Event, es: seq<Event>)
    ensures Exec(w, [e] + es) == Exec(Apply(w, e), es)
    ensures Legal(w, [e] + es) <==> Enabled(w, e) && Legal(Apply(w, e), es)
  {
    assert ([e] + es)[1..] == es;
  }

  lemma TwoSteps(w: World, e: Event, f: Event)
    requires Enabled(w, e) && Enabled(Apply(w, e), f)
    ensures Legal(w, [e, f]) && Exec(w, [e, f]) == Apply(Apply(w, e), f)
  {
    StepRun(Apply(w, e), f, []);
    StepRun(w, e, [f]);
    assert [e] + [f] == [e, f];
  }

  /** An untouched item whose suggestion was saved. */
  function Suggested(r: set<Email>, m: map<Email, nat>, n: nat, c: Email): World {
    World([Item(Queued, Generated, Pending(c, false, NoWait, 0))], {}, r, m[c := 0], r, [n], [0])
  }

  lemma SuggestRuns(w: World, r: set<Email>, m: map<Email, nat>, n: nat, attempts: nat, c: Email)
    requires OneAt(c) && c !in m && c !in r
    requires w == OneItem(Item(Queued, AtQueued, Pending("", false, NoWait, attempts)), r, m, n)
    ensures Legal(w, [StartGenerate(0), SaveCandidate(0, c)])
    ensures Exec(w, [StartGenerate(0), SaveCandidate(0, c)]) == Suggested(r, m, n, c)
  {
    TwoSteps(w, StartGenerate(0), SaveCandidate(0, c));
  }

  lemma SendRuns(w: World, r: set<Email>, m: map<Email, nat>, n: nat, c: Email)
    requires OneAt(c) && c !in m && c !in r && w == Suggested(r, m, n, c)
    ensures Legal(w, [StartReserve(0), ReserveApplied(0)])
    ensures Exec(w, [StartReserve(0), ReserveApplied(0)])
         == OneItem(Item(Running, Reserving, Pending(c, false, NoWait, 0)), r + {c}, m[c := 0], n + 1)
  {
    TwoSteps(w, StartReserve(0), ReserveApplied(0));
  }

  lemma ReserveVisitRuns(r: set<Email>, m: map<Email, nat>, n: nat, attempts: nat, c: Email)
    requires OneAt(c) && c !in m && c !in r
    ensures var w := OneItem(Item(Queued, AtQueued, Pending("", false, NoWait, attempts)), r, m, n);
            && Legal(w, ReserveVisit(c))
            && Exec(w, ReserveVisit(c))
               == OneItem(Item(Running, Reserving, Pending(c, false, NoWait, 0)), r + {c}, m[c := 0], n + 1)
  {
    var w := OneItem(Item(Queued, AtQueued, Pending("", false, NoWait, attempts)), r, m, n);
    var suggest, send := [StartGenerate(0), SaveCandidate(0, c)], [StartReserve(0), ReserveApplied(0)];
    SuggestRuns(w, r, m, n, attempts, c);
    SendRuns(Suggested(r, m, n, c), r, m, n, c);
    RunsConcatenate(w, suggest, send);
    assert ReserveVisit(c) == suggest + send;
  }

  function LostReply(c: Email): World {
    OneItem(Item(Queued, Reconciling, Pending(c, true, NoWait, 1)), {c}, map[c := 0], 1)
  }

  lemma LostReplyRuns(c: Email)
    requires OneAt(c)
    ensures Legal(Empty, LostReplyVisit(c)) && Exec(Empty, LostReplyVisit(c)) == LostReply(c)
  {
    var w1 := OneItem(NewItem, {}, map[], 0);
    assert Apply(Empty, NewJob(1)) == w1;
    ReserveVisitRuns({}, map[], 0, 0, c);
    var w5 := Exec(w1, ReserveVisit(c));
    var rest := [ReserveUnresolved(0, Network, Unavailable), ClearTransient(0)];
    TwoSteps(w5, ReserveUnresolved(0, Network, Unavailable), ClearTransient(0));
    assert Exec(w5, rest) == LostReply(c);
    RunsConcatenate(w1, ReserveVisit(c), rest);
    StepRun(Empty, NewJob(1), ReserveVisit(c) + rest);
  }

  /** The excluded run, for any two suggestions: a lost reply, then a stop during the
      freshness check, and the item owns two remote aliases. */
  lemma EarlyStopMakesTwo(a: Email, b: Email)
    requires OneAt(a) && OneAt(b) && a != b
    ensures Legal(Empty, LostReplyVisit(a))
    ensures var w := Exec(Empty, LostReplyVisit(a));
            && AtRest(w, 0) && Marked(w.items[0])
            && Legal(Apply(w, EarlyStop(0)), ReserveVisit(b))
            && Live(Exec(Apply(w, EarlyStop(0)), ReserveVisit(b)), 0) == {a, b}
  {
    LostReplyRuns(a);
    var v := OneItem(Item(Queued, AtQueued, Pending("", false, NoWait, 1)), {a}, map[a := 0], 1);
    assert Apply(LostReply(a), EarlyStop(0)) == v;
    ReserveVisitRuns({a}, map[a := 0], 1, 1, b);
  }
}
