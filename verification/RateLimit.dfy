/** The sliding-window limiter of icloud_gateway/rate_limit.py: queues that forget, against an
    ideal limiter that remembers every call it ever allowed. */
module RateLimit {

  type Id = (string, string)
  type Events = map<Id, seq<real>>

  datatype Decision = Decision(allowed: bool, retryAfter: int)

  datatype Call = Call(bucket: string, key: string, limit: int, window: real, now: real) {
    function Who(): Id { (bucket, key) }
    function Limit(): nat { BoundedLimit(limit) }
    function Window(): real { BoundedWindow(window) }
    function Cutoff(): real { now - Window() }
  }

  const PURGE_SIZE := 1000
  const LONGEST := 3600.0

  function BoundedLimit(limit: int): nat { if limit < 1 then 1 else limit }
  function BoundedWindow(window: real): real { if window < 1.0 then 1.0 else window }

  function Look(events: Events, who: Id): seq<real> { if who in events then events[who] else [] }

  // ---------------------------------------------------------------- the limiter as it is

  /** What is left of a queue once everything up to the cutoff is popped from its front. */
  function Popped(queue: seq<real>, cutoff: real): seq<real> {
    if queue != [] && queue[0] <= cutoff then Popped(queue[1..], cutoff) else queue
  }

  /** Whole seconds for a wait, rounded up except for the first millisecond, at least one. */
  function Hint(wait: real): int { if (wait + 0.999).Floor < 1 then 1 else (wait + 0.999).Floor }

  function RetryAfter(oldest: real, c: Call): int { Hint(oldest + c.Window() - c.now) }

  predicate Stale(queue: seq<real>, cutoff: real) { queue == [] || queue[|queue| - 1] <= cutoff }

  function PurgeCutoff(c: Call): real { c.now - if c.Window() < LONGEST then LONGEST else c.Window() }

  function Purged(events: Events, c: Call): Events {
    if |events| < PURGE_SIZE then events
    else map who | who in events && !Stale(events[who], PurgeCutoff(c)) :: events[who]
  }

  function Decided(events: Events, c: Call): Decision {
    var queue := Popped(Look(events, c.Who()), c.Cutoff());
    if |queue| >= c.Limit() then Decision(false, RetryAfter(queue[0], c)) else Decision(true, 0)
  }

  function After(events: Events, c: Call): Events {
    var queue := Popped(Look(events, c.Who()), c.Cutoff());
    if |queue| >= c.Limit() then events[c.Who() := queue]
    else Purged(events[c.Who() := queue + [c.now]], c)
  }

  function Run(calls: seq<Call>): Events {
    if calls == [] then map[] else After(Run(calls[..|calls| - 1]), calls[|calls| - 1])
  }

  class SlidingWindowRateLimiter {
    var events: Events

    constructor ()
      ensures events == map[]
    {
      events := map[];
    }

    method Check(c: Call) returns (decision: Decision)
      modifies this
      ensures decision == Decided(old(events), c) && events == After(old(events), c)
    {
      var queue := Look(events, c.Who());
      while queue != [] && queue[0] <= c.Cutoff()
        invariant Popped(queue, c.Cutoff()) == Popped(Look(old(events), c.Who()), c.Cutoff())
      {
        queue := queue[1..];
      }
      events := events[c.Who() := queue];
      if |queue| >= c.Limit() {
        return Decision(false, RetryAfter(queue[0], c));
      }
      events := events[c.Who() := queue + [c.now]];
      PurgeEmpty(c);
      return Decision(true, 0);
    }

    method PurgeEmpty(c: Call)
      modifies this
      ensures events == Purged(old(events), c)
      ensures |old(events)| < 1000 ==> events == old(events)
      ensures |old(events)| >= 1000 ==> forall who ::
                  who in events <==>
                         && who in old(events) && old(events)[who] != []
                         && old(events)[who][|old(events)[who]| - 1]
                          > c.now - (if c.window < 3600.0 then 3600.0 else c.window)
      ensures forall who | who in events :: events[who] == old(events)[who]
    {
      if |events| < PURGE_SIZE {
        return;
      }
      var cutoff := PurgeCutoff(c);
      var stale := set who | who in events && Stale(events[who], cutoff);
      ghost var all := stale;
      while stale != {}
        invariant stale <= all && events == old(events) - (all - stale)
        decreases stale
      {
        var who :| who in stale;
        events, stale := events - {who}, stale - {who};
      }
    }
  }

  // ---------------------------------------------------------------- the ideal limiter

  /** How many of the calls are younger than the cutoff. */
  function Count(history: seq<real>, cutoff: real): nat {
    if history == [] then 0 else
    Count(history[..|history| - 1], cutoff) + if history[|history| - 1] > cutoff then 1 else 0
  }

  predicate IdealAllows(history: seq<real>, limit: nat, window: real, now: real) {
    Count(history, now - window) < limit
  }

  /** Every call the ideal limiter ever allowed to `who`. */
  function Allowed(calls: seq<Call>, who: Id): seq<real> {
    if calls == [] then [] else
    var before := Allowed(calls[..|calls| - 1], who);
    var c := calls[|calls| - 1];
    if c.Who() == who && IdealAllows(before, c.Limit(), c.Window(), c.now) then before + [c.now] else before
  }

  // ---------------------------------------------------------------- the two agree

  datatype Policy = Policy(limit: int, window: real)

  function Last(calls: seq<Call>): real { if calls == [] then 0.0 else calls[|calls| - 1].now }

  predicate Follows(calls: seq<Call>, c: Call, policy: string -> Policy) {
    && (calls == [] || Last(calls) <= c.now)
    && policy(c.bucket) == Policy(c.limit, c.window) && c.window <= LONGEST
  }

  /** A clock that never goes back, and for each bucket one limit and one window of at most an hour. */
  predicate Steady(calls: seq<Call>, policy: string -> Policy) {
    calls == [] || (Steady(calls[..|calls| - 1], policy) && Follows(calls[..|calls| - 1], calls[|calls| - 1], policy))
  }

  predicate By(h: seq<real>, now: real) { h == [] || h[|h| - 1] <= now }

  predicate Ascending(h: seq<real>) { h == [] || (Ascending(h[..|h| - 1]) && By(h[..|h| - 1], h[|h| - 1])) }

  lemma {:induction false} Sorted(h: seq<real>)
    requires Ascending(h)
    ensures forall i, j | 0 <= i < j < |h| :: h[i] <= h[j]
  {
    if |h| > 1 {
      Sorted(h[..|h| - 1]);
    }
  }

  /** The queue is the history without a beginning that is not younger than the cutoff. */
  predicate Tracks(queue: seq<real>, h: seq<real>, cutoff: real)
    decreases |h|
  {
    queue == h || (h != [] && h[0] <= cutoff && Tracks(queue, h[1..], cutoff))
  }

  lemma {:induction false} TracksTail(queue: seq<real>, h: seq<real>, cutoff: real)
    requires Tracks(queue, h, cutoff)
    ensures |queue| <= |h| && queue == h[|h| - |queue|..]
    ensures forall i | 0 <= i < |h| - |queue| :: h[i] <= cutoff
    decreases |h|
  {
    if queue != h {
      TracksTail(queue, h[1..], cutoff);
    }
  }

  lemma {:induction false} DropFirst(queue: seq<real>, h: seq<real>, was: real, cutoff: real)
    requires Tracks(queue, h, was) && was <= cutoff && queue != [] && queue[0] <= cutoff
    ensures Tracks(queue[1..], h, cutoff)
    decreases |h|
  {
    if queue != h {
      DropFirst(queue, h[1..], was, cutoff);
    }
  }

  lemma {:induction false} AllOld(h: seq<real>, cutoff: real)
    requires forall i | 0 <= i < |h| :: h[i] <= cutoff
    ensures Tracks([], h, cutoff)
    decreases |h|
  {
    if h != [] {
      AllOld(h[1..], cutoff);
    }
  }

  lemma {:induction false} CountSplit(h: seq<real>, k: nat, cutoff: real)
    requires k <= |h|
    requires forall i | 0 <= i < k :: h[i] <= cutoff
    requires forall i | k <= i < |h| :: h[i] > cutoff
    ensures Count(h, cutoff) == |h| - k
  {
    if h != [] {
      CountSplit(h[..|h| - 1], if k < |h| then k else k - 1, cutoff);
    }
  }

  /** Popping keeps track of the history and makes the length the ideal count. */
  lemma {:induction false} PoppingTracks(queue: seq<real>, h: seq<real>, was: real, cutoff: real)
    requires Tracks(queue, h, was) && was <= cutoff && Ascending(h)
    ensures Tracks(Popped(queue, cutoff), h, cutoff)
    ensures |Popped(queue, cutoff)| <= |queue| && |Popped(queue, cutoff)| == Count(h, cutoff)
    decreases |queue|
  {
    if queue != [] && queue[0] <= cutoff {
      DropFirst(queue, h, was, cutoff);
      PoppingTracks(queue[1..], h, cutoff, cutoff);
    } else {
      Later(queue, h, was, cutoff);
      TracksTail(queue, h, was);
      Sorted(h);
      CountSplit(h, |h| - |queue|, cutoff);
    }
  }

  lemma {:induction false} AppendTracks(queue: seq<real>, h: seq<real>, cutoff: real, now: real)
    requires Tracks(queue, h, cutoff)
    ensures Tracks(queue + [now], h + [now], cutoff)
    decreases |h|
  {
    if queue != h {
      AppendTracks(queue, h[1..], cutoff, now);
      assert (h + [now])[1..] == h[1..] + [now];
    }
  }

  lemma {:induction false} Later(queue: seq<real>, h: seq<real>, was: real, cutoff: real)
    requires Tracks(queue, h, was) && was <= cutoff
    ensures Tracks(queue, h, cutoff)
    decreases |h|
  {
    if queue != h {
      Later(queue, h[1..], was, cutoff);
    }
  }

  /** Forgetting a queue whose youngest call is out of the window loses nothing. */
  lemma PurgeTracks(events: Events, c: Call, who: Id, h: seq<real>, cutoff: real)
    requires Tracks(Look(events, who), h, cutoff) && PurgeCutoff(c) <= cutoff && Ascending(h)
    ensures Tracks(Look(Purged(events, c), who), h, cutoff)
    ensures |Look(Purged(events, c), who)| <= |Look(events, who)|
  {
    var queue := Look(events, who);
    TracksTail(queue, h, cutoff);
    Sorted(h);
    if Stale(queue, PurgeCutoff(c)) {
      if queue != [] {
        assert queue[|queue| - 1] == h[|h| - 1];
      }
      AllOld(h, cutoff);
    }
  }

  /** The history of one caller ends at the last call, in order. */
  lemma {:induction false} AllowedAscends(calls: seq<Call>, policy: string -> Policy, who: Id)
    requires Steady(calls, policy)
    ensures Ascending(Allowed(calls, who)) && By(Allowed(calls, who), Last(calls))
  {
    if calls != [] {
      var init := calls[..|calls| - 1];
      AllowedAscends(init, policy, who);
      Appended(Allowed(init, who), calls[|calls| - 1].now);
    }
  }

  lemma Appended(h: seq<real>, now: real)
    requires Ascending(h) && By(h, now)
    ensures Ascending(h + [now])
  {
    assert (h + [now])[..|h|] == h;
  }

  /** What the ideal limiter adds to the history of the caller. */
  function Next(h: seq<real>, c: Call): seq<real> {
    if IdealAllows(h, c.Limit(), c.Window(), c.now) then h + [c.now] else h
  }

  lemma OwnCall(events: Events, h: seq<real>, c: Call)
    requires Tracks(Look(events, c.Who()), h, c.Cutoff()) && Ascending(h) && By(h, c.now)
    requires |Look(events, c.Who())| <= c.Limit()
    ensures Tracks(Look(After(events, c), c.Who()), Next(h, c), c.Cutoff())
    ensures |Look(After(events, c), c.Who())| <= c.Limit()
  {
    var queue := Popped(Look(events, c.Who()), c.Cutoff());
    PoppingTracks(Look(events, c.Who()), h, c.Cutoff(), c.Cutoff());
    if |queue| < c.Limit() {
      AppendTracks(queue, h, c.Cutoff(), c.now);
      Appended(h, c.now);
      PurgeTracks(events[c.Who() := queue + [c.now]], c, c.Who(), h + [c.now], c.Cutoff());
    }
  }

  lemma OtherCall(events: Events, h: seq<real>, c: Call, who: Id, cutoff: real)
    requires who != c.Who() && Tracks(Look(events, who), h, cutoff) && Ascending(h) && PurgeCutoff(c) <= cutoff
    ensures Tracks(Look(After(events, c), who), h, cutoff)
    ensures |Look(After(events, c), who)| <= |Look(events, who)|
  {
    var queue := Popped(Look(events, c.Who()), c.Cutoff());
    if |queue| < c.Limit() {
      PurgeTracks(events[c.Who() := queue + [c.now]], c, who, h, cutoff);
    }
  }

  /** The queue of a caller tracks its history and is no longer than its limit. */
  lemma {:induction false} RunTracks(calls: seq<Call>, policy: string -> Policy, who: Id, cutoff: real)
    requires Steady(calls, policy) && policy(who.0).window <= LONGEST
    requires calls == [] || Last(calls) - BoundedWindow(policy(who.0).window) <= cutoff
    ensures Tracks(Look(Run(calls), who), Allowed(calls, who), cutoff)
    ensures |Look(Run(calls), who)| <= BoundedLimit(policy(who.0).limit)
    decreases |calls|
  {
    if calls == [] {
      assert Look(Run(calls), who) == Allowed(calls, who) == [];
    } else {
      var init, c := calls[..|calls| - 1], calls[|calls| - 1];
      var was := c.now - BoundedWindow(policy(who.0).window);
      Before(calls, policy, who);
      RunTracks(init, policy, who, was);
      LastCall(calls, policy, Run(init), Allowed(init, who), who, was, cutoff);
    }
  }

  /** What a steady run tells about its last call. */
  lemma Before(calls: seq<Call>, policy: string -> Policy, who: Id)
    requires calls != [] && Steady(calls, policy)
    ensures var init, c := calls[..|calls| - 1], calls[|calls| - 1];
            && Steady(init, policy) && (init == [] || Last(init) <= c.now)
            && Ascending(Allowed(init, who)) && By(Allowed(init, who), c.now)
            && (c.Who() == who ==> policy(who.0) == Policy(c.limit, c.window))
  {
    AllowedAscends(calls[..|calls| - 1], policy, who);
  }

  lemma LastCall(calls: seq<Call>, policy: string -> Policy, events: Events, h: seq<real>, who: Id, was: real,
                 cutoff: real)
    requires calls != [] && events == Run(calls[..|calls| - 1]) && h == Allowed(calls[..|calls| - 1], who)
    requires var c, p := calls[|calls| - 1], policy(who.0);
             && was == c.now - BoundedWindow(p.window) <= cutoff && p.window <= LONGEST
             && Ascending(h) && By(h, c.now) && (c.Who() == who ==> p == Policy(c.limit, c.window))
    requires Tracks(Look(events, who), h, was) && |Look(events, who)| <= BoundedLimit(policy(who.0).limit)
    ensures Tracks(Look(Run(calls), who), Allowed(calls, who), cutoff)
    ensures |Look(Run(calls), who)| <= BoundedLimit(policy(who.0).limit)
  {
    var c, p := calls[|calls| - 1], policy(who.0);
    CallTracks(events, h, c, who, BoundedLimit(p.limit), was, cutoff);
    OneMore(calls, who);
  }

  lemma OneMore(calls: seq<Call>, who: Id)
    requires calls != []
    ensures var init, c := calls[..|calls| - 1], calls[|calls| - 1];
            && Run(calls) == After(Run(init), c)
            && Allowed(calls, who) == if c.Who() == who then Next(Allowed(init, who), c) else Allowed(init, who)
  {}

  lemma CallTracks(events: Events, h: seq<real>, c: Call, who: Id, limit: nat, was: real, cutoff: real)
    requires Tracks(Look(events, who), h, was) && Ascending(h) && By(h, c.now) && was <= cutoff
    requires |Look(events, who)| <= limit && PurgeCutoff(c) <= was
    requires c.Who() == who ==> c.Limit() == limit && c.Cutoff() == was
    ensures Tracks(Look(After(events, c), who), if c.Who() == who then Next(h, c) else h, cutoff)
    ensures |Look(After(events, c), who)| <= limit
  {
    if c.Who() == who {
      OwnCall(events, h, c);
      Later(Look(After(events, c), who), Next(h, c), was, cutoff);
    } else {
      OtherCall(events, h, c, who, was);
      Later(Look(After(events, c), who), h, was, cutoff);
    }
  }

  /** What is known when the call c comes after a steady run. */
  lemma Now(calls: seq<Call>, c: Call, policy: string -> Policy)
    requires Steady(calls + [c], policy)
    ensures Steady(calls, policy) && Ascending(Allowed(calls, c.Who()))
    ensures policy(c.bucket) == Policy(c.limit, c.window)
    ensures var rest := Popped(Look(Run(calls), c.Who()), c.Cutoff());
            && Tracks(rest, Allowed(calls, c.Who()), c.Cutoff())
            && |rest| <= c.Limit() && |rest| == Count(Allowed(calls, c.Who()), c.Cutoff())
  {
    assert (calls + [c])[..|calls|] == calls;
    RunTracks(calls, policy, c.Who(), c.Cutoff());
    AllowedAscends(calls, policy, c.Who());
    PoppingTracks(Look(Run(calls), c.Who()), Allowed(calls, c.Who()), c.Cutoff(), c.Cutoff());
  }

  /** Evicting queues and the global purge change no decision. */
  lemma SameDecision(calls: seq<Call>, c: Call, policy: string -> Policy)
    requires Steady(calls + [c], policy)
    ensures Decided(Run(calls), c).allowed <==> IdealAllows(Allowed(calls, c.Who()), c.Limit(), c.Window(), c.now)
  {
    Now(calls, c, policy);
    AllowedIff(Run(calls), c);
  }

  /** The limiter lets call number i of the run through. */
  predicate Passes(calls: seq<Call>, i: nat)
    requires i < |calls|
  {
    Decided(Run(calls[..i]), calls[i]).allowed
  }

  /** The calls of one bucket and key that were let through in (from, to]. */
  function LetThrough(calls: seq<Call>, bucket: string, key: string, from: real, to: real): set<nat> {
    set i: nat | && i < |calls| && calls[i].bucket == bucket && calls[i].key == key
                 && from < calls[i].now <= to && Passes(calls, i)
  }

  lemma LetThroughNext(calls: seq<Call>, bucket: string, key: string, from: real, to: real)
    requires calls != []
    ensures var init, c := calls[..|calls| - 1], calls[|calls| - 1];
            |LetThrough(calls, bucket, key, from, to)|
            == |LetThrough(init, bucket, key, from, to)|
            + if c.bucket == bucket && c.key == key && from < c.now <= to && Decided(Run(init), c).allowed then 1 else 0
  {
    var init, c := calls[..|calls| - 1], calls[|calls| - 1];
    forall i: nat | i < |init| ensures Passes(calls, i) <==> Passes(init, i) {
      assert init[..i] == calls[..i];
    }
    var last := if c.bucket == bucket && c.key == key && from < c.now <= to && Decided(Run(init), c).allowed
    then {|init|} else {};
    assert LetThrough(calls, bucket, key, from, to) == LetThrough(init, bucket, key, from, to) + last;
  }

  lemma AllowedNext(calls: seq<Call>, policy: string -> Policy, who: Id)
    requires calls != [] && Steady(calls, policy)
    ensures var init, c := calls[..|calls| - 1], calls[|calls| - 1];
            Allowed(calls, who)
            == if c.bucket == who.0 && c.key == who.1 && Decided(Run(init), c).allowed then Allowed(init, who) + [c.now]
            else Allowed(init, who)
  {
    var init, c := calls[..|calls| - 1], calls[|calls| - 1];
    assert calls == init + [c];
    SameDecision(init, c, policy);
  }

  lemma {:induction false} InsideIs(calls: seq<Call>, policy: string -> Policy, who: Id, from: real, to: real)
    requires Steady(calls, policy)
    ensures Inside(Allowed(calls, who), from, to) == |LetThrough(calls, who.0, who.1, from, to)|
  {
    if calls == [] {
      assert LetThrough(calls, who.0, who.1, from, to) == {};
    } else {
      var init := calls[..|calls| - 1];
      InsideIs(init, policy, who, from, to);
      AllowedNext(calls, policy, who);
      LetThroughNext(calls, who.0, who.1, from, to);
      InsideNext(Allowed(init, who), calls[|calls| - 1].now, from, to);
    }
  }

  lemma InsideNext(h: seq<real>, last: real, from: real, to: real)
    ensures Inside(h + [last], from, to) == Inside(h, from, to) + if from < last <= to then 1 else 0
  {
    assert (h + [last])[..|h|] == h;
  }

  lemma {:induction false} CountIsInside(h: seq<real>, cutoff: real, now: real)
    requires Ascending(h) && By(h, now)
    ensures Count(h, cutoff) == Inside(h, cutoff, now)
  {
    if h != [] {
      CountIsInside(h[..|h| - 1], cutoff, now);
    }
  }

  /** What the limiter does, in terms of the calls alone: a call is let through exactly if fewer
      than `limit` calls of the same bucket and key were let through in the window that ends with
      it.  A limit below one counts as one, and so does a window below a second. */
  lemma LimiterMeans(calls: seq<Call>, c: Call, policy: string -> Policy, limit: int, from: real)
    requires Steady(calls + [c], policy) && limit == (if c.limit < 1 then 1 else c.limit)
    requires from == c.now - if c.window < 1.0 then 1.0 else c.window
    ensures Decided(Run(calls), c).allowed <==> |LetThrough(calls, c.bucket, c.key, from, c.now)| < limit
  {
    DecidesByCount(calls, c, policy);
    assert c.Cutoff() == from && c.Limit() == limit;
  }

  lemma DecidesByCount(calls: seq<Call>, c: Call, policy: string -> Policy)
    requires Steady(calls + [c], policy)
    ensures Decided(Run(calls), c).allowed
       <==> |LetThrough(calls, c.bucket, c.key, c.Cutoff(), c.now)| < c.Limit()
  {
    Now(calls, c, policy);
    AllowedIff(Run(calls), c);
    StillCounted(calls, c, policy);
  }

  lemma StillCounted(calls: seq<Call>, c: Call, policy: string -> Policy)
    requires Steady(calls + [c], policy)
    ensures Count(Allowed(calls, c.Who()), c.Cutoff()) == |LetThrough(calls, c.bucket, c.key, c.Cutoff(), c.now)|
  {
    assert (calls + [c])[..|calls|] == calls;
    AllowedAscends(calls, policy, c.Who());
    CountIsInside(Allowed(calls, c.Who()), c.Cutoff(), c.now);
    InsideIs(calls, policy, c.Who(), c.Cutoff(), c.now);
  }

  lemma AllowedIff(events: Events, c: Call)
    ensures Decided(events, c).allowed <==> |Popped(Look(events, c.Who()), c.Cutoff())| < c.Limit()
  {}

  // ---------------------------------------------------------------- what it is for

  /** Any limit + 1 consecutive calls take at least a window. */
  ghost predicate Spaced(h: seq<real>, limit: nat, window: real) {
    forall i, j | 0 <= i && i + limit <= j < |h| :: h[i] + window <= h[j]
  }

  /** One more call that the ideal limiter allows. */
  lemma AllowedSpaces(h: seq<real>, limit: nat, window: real, now: real)
    requires Ascending(h) && By(h, now) && Spaced(h, limit, window) && IdealAllows(h, limit, window, now)
    ensures Spaced(h + [now], limit, window)
  {
    var g := h + [now];
    Sorted(h);
    forall i | 0 <= i && i + limit <= |h| ensures g[i] + window <= now {
      if h[i] > now - window {
        CountAtLeast(h, i, now - window);
      }
    }
  }

  lemma {:induction false} CountAtLeast(h: seq<real>, k: nat, cutoff: real)
    requires k <= |h| && forall i | k <= i < |h| :: h[i] > cutoff
    ensures Count(h, cutoff) >= |h| - k
  {
    if k < |h| {
      CountAtLeast(h[..|h| - 1], k, cutoff);
    }
  }

  lemma {:induction false} AllowedSpaced(calls: seq<Call>, policy: string -> Policy, who: Id)
    requires Steady(calls, policy)
    ensures Spaced(Allowed(calls, who), BoundedLimit(policy(who.0).limit), BoundedWindow(policy(who.0).window))
  {
    if calls != [] {
      var init, c := calls[..|calls| - 1], calls[|calls| - 1];
      AllowedSpaced(init, policy, who);
      AllowedAscends(init, policy, who);
      if c.Who() == who && IdealAllows(Allowed(init, who), c.Limit(), c.Window(), c.now) {
        AllowedSpaces(Allowed(init, who), c.Limit(), c.Window(), c.now);
      }
    }
  }

  /** How many of the calls lie in the half-open window (from, to]. */
  function Inside(h: seq<real>, from: real, to: real): nat {
    if h == [] then 0 else
    Inside(h[..|h| - 1], from, to) + if from < h[|h| - 1] <= to then 1 else 0
  }

  lemma {:induction false} InsideAtMost(h: seq<real>, k: nat, from: real, to: real)
    requires k <= |h| && forall i | 0 <= i < k :: h[i] <= from
    ensures Inside(h, from, to) <= |h| - k
  {
    if h != [] {
      InsideAtMost(h[..|h| - 1], if k < |h| then k else k - 1, from, to);
    }
  }

  lemma {:induction false} SpacedFits(h: seq<real>, limit: nat, window: real, from: real)
    requires Spaced(h, limit, window) && limit > 0
    ensures Inside(h, from, from + window) <= limit
  {
    if h != [] {
      var last := h[|h| - 1];
      if from < last <= from + window && limit < |h| {
        assert forall i | 0 <= i < |h| - limit :: h[i] + window <= last;
        InsideAtMost(h, |h| - limit, from, from + window);
      } else if limit >= |h| {
        InsideAtMost(h, 0, from, from + window);
      } else {
        SpacedFits(h[..|h| - 1], limit, window, from);
      }
    }
  }

  lemma LetThroughFits(calls: seq<Call>, policy: string -> Policy, who: Id, limit: nat, window: real, from: real)
    requires Steady(calls, policy)
    requires limit == BoundedLimit(policy(who.0).limit) && window == BoundedWindow(policy(who.0).window)
    ensures |LetThrough(calls, who.0, who.1, from, from + window)| <= limit
  {
    AllowedSpaced(calls, policy, who);
    SpacedFits(Allowed(calls, who), limit, window, from);
    InsideIs(calls, policy, who, from, from + window);
  }

  /** No half-open window ever holds more than `limit` allowed calls. */
  lemma WindowHoldsLimit(calls: seq<Call>, policy: string -> Policy, who: Id, from: real)
    requires Steady(calls, policy)
    ensures var p := policy(who.0);
            var limit, window := if p.limit < 1 then 1 else p.limit, if p.window < 1.0 then 1.0 else p.window;
            |LetThrough(calls, who.0, who.1, from, from + window)| <= limit
  {
    var p := policy(who.0);
    LetThroughFits(calls, policy, who, BoundedLimit(p.limit), BoundedWindow(p.window), from);
  }

  /** The time until the oldest counted call leaves the window. */
  function Wait(h: seq<real>, c: Call): real
    requires c.Limit() <= |h|
  {
    h[|h| - c.Limit()] + c.Window() - c.now
  }

  /** A refusal: the queue holds `limit` calls, and the hint is computed from the oldest. */
  lemma Refused(calls: seq<Call>, c: Call, policy: string -> Policy)
    requires Steady(calls + [c], policy) && !Decided(Run(calls), c).allowed
    ensures Ascending(Allowed(calls, c.Who())) && |Allowed(calls, c.Who())| >= c.Limit()
    ensures var h := Allowed(calls, c.Who());
            Wait(h, c) > 0.0 && Decided(Run(calls), c).retryAfter == Hint(Wait(h, c))
  {
    Now(calls, c, policy);
    RefusedHere(Run(calls), Allowed(calls, c.Who()), c);
  }

  lemma RefusedHere(events: Events, h: seq<real>, c: Call)
    requires var rest := Popped(Look(events, c.Who()), c.Cutoff());
             Tracks(rest, h, c.Cutoff()) && |rest| <= c.Limit() && |rest| == Count(h, c.Cutoff())
    requires Ascending(h) && !Decided(events, c).allowed
    ensures |h| >= c.Limit() && Wait(h, c) > 0.0 && Decided(events, c).retryAfter == Hint(Wait(h, c))
  {
    var rest := Popped(Look(events, c.Who()), c.Cutoff());
    TracksTail(rest, h, c.Cutoff());
    assert rest[0] == h[|h| - c.Limit()];
    if Wait(h, c) <= 0.0 {
      Sorted(h);
      CountAtMost(h, |h| - c.Limit() + 1, c.Cutoff());
    }
  }

  lemma {:induction false} CountAtMost(h: seq<real>, k: nat, cutoff: real)
    requires k <= |h| && forall i | 0 <= i < k :: h[i] <= cutoff
    ensures Count(h, cutoff) <= |h| - k
  {
    if k < |h| {
      CountAtMost(h[..|h| - 1], k, cutoff);
    } else if h != [] {
      CountAtMost(h[..|h| - 1], k - 1, cutoff);
    }
  }

  /** When the ideal limiter allows again if nothing else is asked: exactly from `Wait` on. */
  lemma AllowedAgainIff(h: seq<real>, c: Call, delay: real)
    requires Ascending(h) && c.Limit() <= |h|
    ensures IdealAllows(h, c.Limit(), c.Window(), c.now + delay) <==> Wait(h, c) <= delay
  {
    var k := |h| - c.Limit();
    Sorted(h);
    if Wait(h, c) <= delay {
      CountAtMost(h, k + 1, c.now + delay - c.Window());
    } else {
      CountAtLeast(h, k, c.now + delay - c.Window());
    }
  }

  /** After a refusal, the hint is less than a millisecond short of the true wait and less than
      a second beyond it; a call that waits as long as it was told is allowed unless the true
      wait ends in the first millisecond after a full second. */
  lemma RefusalHint(calls: seq<Call>, c: Call, policy: string -> Policy)
    requires Steady(calls + [c], policy) && !Decided(Run(calls), c).allowed
    ensures |Allowed(calls, c.Who())| >= c.Limit()
    ensures HintHolds(Allowed(calls, c.Who()), c, Decided(Run(calls), c).retryAfter as real)
  {
    Refused(calls, c, policy);
    HintIs(Allowed(calls, c.Who()), c);
  }

  lemma HintIs(h: seq<real>, c: Call)
    requires Ascending(h) && c.Limit() <= |h| && Wait(h, c) > 0.0
    ensures HintHolds(h, c, Hint(Wait(h, c)) as real)
  {
    AllowedAgainIff(h, c, Hint(Wait(h, c)) as real);
    HintArithmetic(Wait(h, c));
  }

  function OneInThree(bucket: string): Policy { Policy(1, 3.0) }

  function Asks(who: Id, now: real): Call { Call(who.0, who.1, 1, 3.0, now) }

  /** A call that waits as long as it was told and is refused again: with one call in three
      seconds, the second call comes 0.9995 s after the first and the third two seconds later. */
  lemma HintTooShort(who: Id)
    ensures var one, two := [Asks(who, 0.0)], [Asks(who, 0.0), Asks(who, 0.9995)];
            && Steady(two + [Asks(who, 2.9995)], OneInThree)
            && Decided(Run([]), Asks(who, 0.0)).allowed
            && Decided(Run(one), Asks(who, 0.9995)) == Decision(false, 2)
            && !Decided(Run(two), Asks(who, 0.9995 + 2.0)).allowed
  {
    var first, second, third := Asks(who, 0.0), Asks(who, 0.9995), Asks(who, 2.9995);
    OneCall([], first, OneInThree);
    OneCall([first], second, OneInThree);
    OneCall([first, second], third, OneInThree);
    assert [] + [first] == [first] && [first] + [second] == [first, second];
    FirstCall(who);
    LaterCall(who, 0.9995);
    LaterCall(who, 2.9995);
    FloorIs(2.0005 + 0.999, 2);
  }

  lemma FirstCall(who: Id)
    ensures Decided(map[], Asks(who, 0.0)).allowed && After(map[], Asks(who, 0.0)) == map[who := [0.0]]
  {
    var empty: Events := map[];
    assert Look(empty, who) == [] && [] + [0.0] == [0.0] && |empty[who := [0.0]]| == 1;
  }

  lemma LaterCall(who: Id, now: real)
    requires 0.0 <= now < 3.0
    ensures var kept: Events := map[who := [0.0]];
            && Decided(kept, Asks(who, now)) == Decision(false, Hint(3.0 - now))
            && After(kept, Asks(who, now)) == kept
  {
    var kept: Events := map[who := [0.0]];
    assert Look(kept, who) == [0.0] && kept[who := [0.0]] == kept;
  }

  lemma OneCall(calls: seq<Call>, c: Call, policy: string -> Policy)
    ensures Run(calls + [c]) == After(Run(calls), c)
    ensures Steady(calls + [c], policy) <==> Steady(calls, policy) && Follows(calls, c, policy)
  {
    assert (calls + [c])[..|calls|] == calls;
  }

  ghost predicate HintHolds(h: seq<real>, c: Call, hint: real)
    requires c.Limit() <= |h|
  {
    var wait := Wait(h, c);
    var part := wait - wait.Floor as real;
    && 1.0 <= hint && wait - 0.001 < hint < wait + 1.0
    && (IdealAllows(h, c.Limit(), c.Window(), c.now + hint) <==> wait <= 1.0 || part == 0.0 || part >= 0.001)
  }

  lemma HintArithmetic(wait: real)
    requires wait > 0.0
    ensures var hint := Hint(wait) as real;
            var part := wait - wait.Floor as real;
            && 1.0 <= hint && wait - 0.001 < hint < wait + 1.0
            && (wait <= hint <==> wait <= 1.0 || part == 0.0 || part >= 0.001)
  {
    var whole := wait.Floor;
    var part := wait - whole as real;
    if part < 0.001 {
      FloorIs(wait + 0.999, whole);
    } else {
      FloorIs(wait + 0.999, whole + 1);
    }
  }

  lemma FloorIs(x: real, n: int)
    requires n as real <= x < (n + 1) as real
    ensures x.Floor == n
  {}
}
