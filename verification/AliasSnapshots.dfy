/** Alias snapshots against lifecycle writes (icloud_gateway/service.py).

    A snapshot reads the whole remote list without a lock, which takes seconds, and is then
    applied to the local table under a lock - but only if a generation counter did not move
    and no write is active.  Each event below is one critical section of the source. */
module AliasSnapshots {

  /** Remote alias list: address to "is active". */
  type Aliases = map<string, bool>

  /** One operation in progress.  Operations have ids of their own, never reused. */
  datatype Op =
    | Began(gen: nat, during: bool)
    | Listed(gen: nat, during: bool, list: Aliases)
    | HoldsLock
    | Writing
    | Confirmed(list: Aliases)
    | Finishing
    | Done

  /** Holder of _remote_write_lock. */
  datatype Holder = Nobody | HeldBy(op: nat)

  datatype State = State(
    generation: nat,
    writeActive: bool,
    writer: Holder,
    local: Aliases,            // what the local table was last made to agree with
    remote: Aliases,
    ops: map<nat, Op>,
    outside: set<nat>)         // operations whose list may miss a change made elsewhere

  datatype Event =
    | Begin(op: nat, during: bool)
    | List(op: nat)
    | Commit(op: nat)
    | TakeWriteLock(op: nat)
    | BeginWrite(op: nat)
    | RemoteWrite(op: nat, aliases: Aliases)
    | ConfirmWrite(op: nat)
    | ApplyConfirmed(op: nat)
    | UpsertCreated(op: nat, email: string)
    | FinishWrite(op: nat)
    | ReleaseWriteLock(op: nat)
    | ChangedElsewhere(aliases: Aliases)

  predicate InWrite(op: Op) { op.Writing? || op.Confirmed? }

  predicate Locking(op: Op) { op.HoldsLock? || InWrite(op) || op.Finishing? }

  predicate InPhase(s: State, op: nat, phase: Op) { op in s.ops && s.ops[op] == phase }

  predicate Enabled(s: State, e: Event) {
    match e
    case Begin(op, during) => op !in s.ops && (s.writeActive ==> during)
    case List(op) => op in s.ops && s.ops[op].Began?
    case Commit(op) => op in s.ops && s.ops[op].Listed?
    case TakeWriteLock(op) => op !in s.ops && s.writer == Nobody
    case BeginWrite(op) => InPhase(s, op, HoldsLock)
    case RemoteWrite(op, _) => InPhase(s, op, Writing)
    case ConfirmWrite(op) => InPhase(s, op, Writing)
    case ApplyConfirmed(op) => op in s.ops && s.ops[op].Confirmed?
    case UpsertCreated(op, _) => InPhase(s, op, Writing)
    case FinishWrite(op) => op in s.ops && InWrite(s.ops[op])
    case ReleaseWriteLock(op) => InPhase(s, op, Finishing)
    case ChangedElsewhere(_) => true
  }

  /** The event is a step of operation `op`. */
  predicate By(e: Event, op: nat) {
    match e
    case ChangedElsewhere(_) => false
    case Begin(o, _) => o == op
    case List(o) => o == op
    case Commit(o) => o == op
    case TakeWriteLock(o) => o == op
    case BeginWrite(o) => o == op
    case RemoteWrite(o, _) => o == op
    case ConfirmWrite(o) => o == op
    case ApplyConfirmed(o) => o == op
    case UpsertCreated(o, _) => o == op
    case FinishWrite(o) => o == op
    case ReleaseWriteLock(o) => o == op
  }

  /** The test at the head of _commit_alias_snapshot. */
  predicate Accepts(s: State, op: nat)
    requires op in s.ops && s.ops[op].Listed?
  {
    (s.writeActive ==> s.ops[op].during) && s.ops[op].gen == s.generation
  }

  /** The list becomes the local table: accepted, and not a refresh inside a write. */
  predicate Applies(s: State, op: nat)
    requires op in s.ops && s.ops[op].Listed?
  {
    Accepts(s, op) && !s.ops[op].during
  }

  function Apply(s: State, e: Event): State
    requires Enabled(s, e)
  {
    match e
    case Begin(op, during) => s.(ops := s.ops[op := Began(s.generation, during)])
    case List(op) =>
      s.(ops := s.ops[op := Listed(s.ops[op].gen, s.ops[op].during, s.remote)], outside := s.outside - {op})
    case Commit(op) =>
      s.(ops := s.ops[op := Done],
      generation := s.generation + if Accepts(s, op) then 1 else 0,
      local := if Applies(s, op) then s.ops[op].list else s.local)
    case TakeWriteLock(op) => s.(ops := s.ops[op := HoldsLock], writer := HeldBy(op))
    case BeginWrite(op) =>
      s.(ops := s.ops[op := Writing], writeActive := true, generation := s.generation + 1)
    case RemoteWrite(_, aliases) => s.(remote := aliases)
    case ConfirmWrite(op) => s.(ops := s.ops[op := Confirmed(s.remote)], outside := s.outside - {op})
    case ApplyConfirmed(op) =>
      s.(ops := s.ops[op := Writing], local := s.ops[op].list, generation := s.generation + 1)
    case UpsertCreated(_, email) => s.(local := s.local[email := true])
    case FinishWrite(op) => s.(ops := s.ops[op := Finishing], writeActive := false)
    case ReleaseWriteLock(op) => s.(ops := s.ops[op := Done], writer := Nobody)
    case ChangedElsewhere(aliases) => s.(remote := aliases, outside := s.ops.Keys)
  }

  predicate Legal(s: State, es: seq<Event>)
    decreases |es|
  {
    es == [] || (Enabled(s, es[0]) && Legal(Apply(s, es[0]), es[1..]))
  }

  function Exec(s: State, es: seq<Event>): State
    requires Legal(s, es)
    decreases |es|
  {
    if es == [] then s else Exec(Apply(s, es[0]), es[1..])
  }

  /** Events that touch the local table or open or close a write. */
  predicate Boundary(s: State, e: Event)
    requires Enabled(s, e)
  {
    || e.BeginWrite? || e.FinishWrite? || e.RemoteWrite? || e.ApplyConfirmed? || e.UpsertCreated?
    || (e.Commit? && Accepts(s, e.op))
  }

  /** No boundary event happens in the run, and no write is active at any moment of it. */
  predicate Quiet(s: State, es: seq<Event>)
    requires Legal(s, es)
    decreases |es|
  {
    !s.writeActive && (es == [] || (!Boundary(s, es[0]) && Quiet(Apply(s, es[0]), es[1..])))
  }

  // ---------------------------------------------------------------- locking

  /** A write is active only for the holder of the write lock. */
  ghost predicate Inv(s: State) {
    && (forall op | op in s.ops && Locking(s.ops[op]) :: s.writer == HeldBy(op))
    && (s.writer.HeldBy? ==> s.writer.op in s.ops && Locking(s.ops[s.writer.op]))
    && (s.writeActive <==> s.writer.HeldBy? && InWrite(s.ops[s.writer.op]))
  }

  lemma EventKeeps(s: State, e: Event)
    requires Inv(s) && Enabled(s, e)
    ensures Inv(Apply(s, e))
  {}

  lemma {:induction false} RunKeeps(s: State, es: seq<Event>)
    requires Inv(s) && Legal(s, es)
    ensures Inv(Exec(s, es))
    decreases |es|
  {
    if es != [] {
      EventKeeps(s, es[0]);
      RunKeeps(Apply(s, es[0]), es[1..]);
    }
  }

  // ---------------------------------------------------------------- the counter

  lemma {:induction false} GenerationGrows(s: State, es: seq<Event>)
    requires Legal(s, es)
    ensures Exec(s, es).generation >= s.generation
    decreases |es|
  {
    if es != [] {
      GenerationGrows(Apply(s, es[0]), es[1..]);
    }
  }

  /** The counter is a faithful witness: between two moments without an active write it is
      unchanged exactly when nothing in between touched the table or was a write. */
  lemma {:induction false} UnmovedMeansQuiet(s: State, es: seq<Event>)
    requires Inv(s) && Legal(s, es) && !s.writeActive
    ensures Exec(s, es).generation == s.generation && !Exec(s, es).writeActive <==> Quiet(s, es)
    decreases |es|
  {
    if es != [] {
      var t := Apply(s, es[0]);
      EventKeeps(s, es[0]);
      GenerationGrows(t, es[1..]);
      if Boundary(s, es[0]) {
        assert t.generation > s.generation;
      } else {
        UnmovedMeansQuiet(t, es[1..]);
      }
    }
  }

  /** A snapshot keeps the generation it began with until its own commit. */
  lemma {:induction false} GenerationKept(s: State, es: seq<Event>, op: nat)
    requires Legal(s, es) && op in s.ops && (s.ops[op].Began? || s.ops[op].Listed?)
    requires op in Exec(s, es).ops && Exec(s, es).ops[op].Listed?
    ensures Exec(s, es).ops[op].gen == s.ops[op].gen && Exec(s, es).ops[op].during == s.ops[op].during
    decreases |es|
  {
    if es != [] {
      var t := Apply(s, es[0]);
      if t.ops[op] == Done {
        DoneStays(t, es[1..], op);
      } else {
        GenerationKept(t, es[1..], op);
      }
    }
  }

  lemma {:induction false} DoneStays(s: State, es: seq<Event>, op: nat)
    requires Legal(s, es) && InPhase(s, op, Done)
    ensures InPhase(Exec(s, es), op, Done)
    decreases |es|
  {
    if es != [] {
      DoneStays(Apply(s, es[0]), es[1..], op);
    }
  }

  /** Compare-and-set: a snapshot is applied exactly when, from its begin to its commit, no
      write was active, no lifecycle operation changed anything and no other snapshot was
      accepted.  This holds for every interleaving of the other operations `es`. */
  lemma AppliedIffQuiet(s: State, op: nat, es: seq<Event>)
    requires Inv(s) && Enabled(s, Begin(op, false))
    requires var t := Apply(s, Begin(op, false)); Legal(t, es) && op in Exec(t, es).ops && Exec(t, es).ops[op].Listed?
    ensures var t := Apply(s, Begin(op, false)); Applies(Exec(t, es), op) <==> Quiet(t, es)
  {
    var t := Apply(s, Begin(op, false));
    EventKeeps(s, Begin(op, false));
    GenerationKept(t, es, op);
    UnmovedMeansQuiet(t, es);
  }

  lemma {:induction false} QuietMoments(s: State, es: seq<Event>, k: nat)
    requires Legal(s, es) && Quiet(s, es) && k < |es|
    ensures Legal(s, es[..k]) && !Exec(s, es[..k]).writeActive
    ensures Enabled(Exec(s, es[..k]), es[k]) && !Boundary(Exec(s, es[..k]), es[k])
    decreases |es|
  {
    if k > 0 {
      var t := Apply(s, es[0]);
      QuietMoments(t, es[1..], k - 1);
      assert es[..k][1..] == es[1..][..k - 1] && es[..k][0] == es[0];
    }
  }

  /** Applied snapshots form one linear order: if another snapshot is applied, or a write
      begins or ends, between begin and commit, then the commit is discarded and leaves the
      local table as it is. */
  lemma OverlapDiscards(s: State, op: nat, es: seq<Event>, k: nat)
    requires Inv(s) && Enabled(s, Begin(op, false)) && k < |es|
    requires var t := Apply(s, Begin(op, false)); Legal(t, es) && op in Exec(t, es).ops && Exec(t, es).ops[op].Listed?
    requires var t := Apply(s, Begin(op, false)); Legal(t, es[..k]) && Enabled(Exec(t, es[..k]), es[k])
    requires var t := Apply(s, Begin(op, false)); Boundary(Exec(t, es[..k]), es[k])
    ensures var t := Apply(s, Begin(op, false));
            !Applies(Exec(t, es), op) && Apply(Exec(t, es), Commit(op)).local == Exec(t, es).local
  {
    var t := Apply(s, Begin(op, false));
    AppliedIffQuiet(s, op, es);
    if Quiet(t, es) {
      QuietMoments(t, es, k);
    }
  }

  // ---------------------------------------------------------------- freshness of the data

  /** While nothing moved the counter, a list taken is still what the service holds, unless
      somebody outside the gateway changed it meanwhile. */
  ghost predicate FreshLists(s: State) { forall op | op in s.ops :: Fresh(s, op) }

  ghost predicate Fresh(s: State, op: nat)
    requires op in s.ops
  {
    match s.ops[op]
    case Began(gen, during) => Dated(s, gen, during)
    case Listed(gen, during, list) =>
      Dated(s, gen, during) && (!during && op !in s.outside && gen == s.generation ==> list == s.remote)
    case Confirmed(list) => op !in s.outside ==> list == s.remote
    case _ => true
  }

  predicate Dated(s: State, gen: nat, during: bool) {
    gen <= s.generation && (gen == s.generation && s.writeActive ==> during)
  }

  lemma EventKeepsFresh(s: State, e: Event)
    requires Inv(s) && FreshLists(s) && Enabled(s, e)
    ensures FreshLists(Apply(s, e))
  {
    forall op | op in Apply(s, e).ops ensures Fresh(Apply(s, e), op) {
      EventKeepsOneFresh(s, e, op);
    }
  }

  lemma EventKeepsOneFresh(s: State, e: Event, op: nat)
    requires Inv(s) && Enabled(s, e) && op in Apply(s, e).ops && (op in s.ops ==> Fresh(s, op))
    ensures Fresh(Apply(s, e), op)
  {}

  lemma {:induction false} RunKeepsFresh(s: State, es: seq<Event>)
    requires Inv(s) && FreshLists(s) && Legal(s, es)
    ensures Inv(Exec(s, es)) && FreshLists(Exec(s, es))
    decreases |es|
  {
    if es != [] {
      EventKeeps(s, es[0]);
      EventKeepsFresh(s, es[0]);
      RunKeepsFresh(Apply(s, es[0]), es[1..]);
    }
  }

  function Start(local: Aliases, remote: Aliases): State {
    State(0, false, Nobody, local, remote, map[], {})
  }

  /** A commit never writes a stale list: whatever is applied equals the remote state at that
      very moment, so a sync cannot undo a finished deactivation or deletion. */
  lemma AppliedIsCurrent(local: Aliases, remote: Aliases, es: seq<Event>, op: nat)
    requires Legal(Start(local, remote), es)
    requires var s := Exec(Start(local, remote), es);
             Enabled(s, Commit(op)) && op !in s.outside && Applies(s, op)
    ensures var s := Exec(Start(local, remote), es);
            !s.writeActive && Apply(s, Commit(op)).local == s.remote
  {
    RunKeepsFresh(Start(local, remote), es);
  }

  /** A finished lifecycle write, too, leaves the local table equal to the remote state. */
  lemma ConfirmedIsCurrent(local: Aliases, remote: Aliases, es: seq<Event>, op: nat)
    requires Legal(Start(local, remote), es)
    requires var s := Exec(Start(local, remote), es); Enabled(s, ApplyConfirmed(op)) && op !in s.outside
    ensures var s := Exec(Start(local, remote), es); Apply(s, ApplyConfirmed(op)).local == s.remote
  {
    RunKeepsFresh(Start(local, remote), es);
  }

  lemma Snoc(s: State, es: seq<Event>, e: Event)
    requires Legal(s, es) && Enabled(Exec(s, es), e)
    ensures Legal(s, es + [e]) && Exec(s, es + [e]) == Apply(Exec(s, es), e)
    decreases |es|
  {
    if es == [] {
      assert [e][1..] == [];
    } else {
      assert (es + [e])[0] == es[0] && (es + [e])[1..] == es[1..] + [e];
      Snoc(Apply(s, es[0]), es[1..], e);
    }
  }

  // ---------------------------------------------------------------- the gateway

  lemma {:induction false} RunSplits(s: State, es: seq<Event>, fs: seq<Event>)
    requires Legal(s, es + fs)
    ensures Legal(s, es) && Legal(Exec(s, es), fs) && Exec(s, es + fs) == Exec(Exec(s, es), fs)
    decreases |es|
  {
    if es == [] {
      assert es + fs == fs;
    } else {
      assert (es + fs)[0] == es[0] && (es + fs)[1..] == es[1..] + fs;
      RunSplits(Apply(s, es[0]), es[1..], fs);
    }
  }

  /** From `was` a snapshot began, `between` happened, and its commit led to `now`; it was applied
      exactly if `between` was quiet. */
  ghost predicate Overlooks(was: State, op: nat, between: seq<Event>, now: State, applied: bool) {
    && Enabled(was, Begin(op, false)) && Legal(Apply(was, Begin(op, false)), between)
    && var t := Apply(was, Begin(op, false));
    && Enabled(Exec(t, between), Commit(op)) && now == Apply(Exec(t, between), Commit(op))
    && (applied <==> Quiet(t, between))
  }

  /** The three lifecycle operations on one alias. */
  datatype Change = Deactivate(email: string) | Reactivate(email: string) | Delete(email: string)

  /** The state the source demands of the local alias. */
  predicate Changeable(local: Aliases, c: Change) { c.email in local && local[c.email] == c.Deactivate? }

  /** What the remote call does. */
  function Effect(list: Aliases, c: Change): Aliases {
    match c
    case Delete(email) => list - {email}
    case _ => if c.email in list then list[c.email := c.Reactivate?] else list
  }

  /** The confirming list shows the change. */
  predicate Shows(list: Aliases, c: Change) {
    match c
    case Deactivate(email) => email in list && !list[email]
    case Reactivate(email) => email in list && list[email]
    case Delete(email) => email !in list
  }

  /** It names every alias that is known, but not one that is deleted. */
  predicate Complete(list: Aliases, local: Aliases, c: Change) {
    forall e | e in local :: e in list || c == Delete(e)
  }

  const CONFIRM_ATTEMPTS := 3

  datatype SyncResult = Busy | Committed | DiscardedStale

  class Gateway {
    var generation: nat
    var writeActive: bool
    var writer: Holder
    var local: Aliases
    var remote: Aliases
    var ops: map<nat, Op>
    var outside: set<nat>
    const local0: Aliases
    const remote0: Aliases
    ghost var log: seq<Event>

    ghost function S(): State
      reads this
    {
      State(generation, writeActive, writer, local, remote, ops, outside)
    }

    ghost predicate Valid()
      reads this
    {
      Legal(Start(local0, remote0), log) && Exec(Start(local0, remote0), log) == S()
    }

    constructor (local: Aliases, remote: Aliases)
      ensures Valid() && log == [] && S() == Start(local, remote)
    {
      generation, writeActive, writer, ops, outside := 0, false, Nobody, map[], {};
      this.local, this.remote, local0, remote0 := local, remote, local, remote;
      log := [];
    }

    ghost method Record(before: State, e: Event)
      requires Legal(Start(local0, remote0), log) && Exec(Start(local0, remote0), log) == before
      requires Enabled(before, e) && S() == Apply(before, e)
      modifies this`log
      ensures Valid() && log == old(log) + [e]
    {
      Snoc(Start(local0, remote0), log, e);
      log := log + [e];
    }

    /** _begin_alias_snapshot */
    method BeginAliasSnapshot(op: nat, allowDuringWrite: bool) returns (busy: bool)
      requires Valid() && op !in ops
      modifies this
      ensures Valid() && (busy <==> old(writeActive) && !allowDuringWrite)
      ensures busy ==> S() == old(S()) && log == old(log)
      ensures !busy ==> S() == old(S()).(ops := old(ops)[op := Began(generation, allowDuringWrite)])
      ensures !busy ==> log == old(log) + [Begin(op, allowDuringWrite)]
    {
      if writeActive && !allowDuringWrite {
        return true;
      }
      ghost var before := S();
      ops := ops[op := Began(generation, allowDuringWrite)];
      Record(before, Begin(op, allowDuringWrite));
      return false;
    }

    method ListAliases(op: nat)
      requires Valid() && op in ops && ops[op].Began?
      modifies this
      ensures Valid() && log == old(log) + [List(op)]
      ensures op in ops && ops[op] == Listed(old(ops)[op].gen, old(ops)[op].during, remote) && op !in outside
    {
      ghost var before := S();
      ops, outside := ops[op := Listed(ops[op].gen, ops[op].during, remote)], outside - {op};
      Record(before, List(op));
    }

    /** _commit_alias_snapshot */
    method CommitAliasSnapshot(op: nat) returns (committed: bool)
      requires Valid() && op in ops && ops[op].Listed?
      modifies this
      ensures Valid() && log == old(log) + [Commit(op)]
      ensures committed <==> Accepts(old(S()), op)
      ensures S() == Apply(old(S()), Commit(op))
      ensures local == if committed && !old(ops)[op].during then old(ops)[op].list else old(local)
      ensures generation == old(generation) + if committed then 1 else 0
    {
      ghost var before := S();
      var gen, during, list := ops[op].gen, ops[op].during, ops[op].list;
      committed := !((writeActive && !during) || gen != generation);
      if committed {
        if !during {
          local := list;
        }
        generation := generation + 1;
      }
      ops := ops[op := Done];
      Record(before, Commit(op));
    }

    /** _begin_remote_write: the lock is tried, never waited for. */
    method BeginRemoteWrite(op: nat, stopping: bool) returns (started: bool)
      requires Valid() && op !in ops
      modifies this
      ensures Valid() && (started <==> !stopping && old(writer) == Nobody)
      ensures started ==> writeActive && writer == HeldBy(op) && generation == old(generation) + 1
      ensures started ==> op in ops && ops[op] == Writing && old(log) <= log
      ensures started ==> local == old(local) && remote == old(remote)
      ensures !started ==> S() == old(S()) && log == old(log)
    {
      if stopping || writer != Nobody {
        return false;
      }
      ghost var before := S();
      writer, ops := HeldBy(op), ops[op := HoldsLock];
      Record(before, TakeWriteLock(op));
      before := S();
      ops, writeActive, generation := ops[op := Writing], true, generation + 1;
      Record(before, BeginWrite(op));
      return true;
    }

    /** _finish_remote_write */
    method FinishRemoteWrite(op: nat)
      requires Valid() && op in ops && InWrite(ops[op])
      modifies this
      ensures Valid() && old(log) <= log && !writeActive && writer == Nobody
      ensures local == old(local) && remote == old(remote) && outside == old(outside) && generation == old(generation)
    {
      ghost var before := S();
      ops, writeActive := ops[op := Finishing], false;
      Record(before, FinishWrite(op));
      before := S();
      ops, writer := ops[op := Done], Nobody;
      Record(before, ReleaseWriteLock(op));
    }

    method OtherStep(op: nat, e: Event)
      requires Valid() && op in ops && Enabled(S(), e) && !By(e, op)
      modifies this
      ensures Valid() && log == old(log) + [e] && op in ops && ops[op] == old(ops)[op]
      ensures generation >= old(generation)
    {
      ghost var before := S();
      var t := Apply(State(generation, writeActive, writer, local, remote, ops, outside), e);
      generation, writeActive, writer, local := t.generation, t.writeActive, t.writer, t.local;
      remote, ops, outside := t.remote, t.ops, t.outside;
      Record(before, e);
    }

    /** Anything the other operations and the outside world do, step by step; nothing if `quiet`. */
    method Interference(op: nat, quiet: bool)
      requires Valid() && op in ops
      modifies this
      ensures Valid() && old(log) <= log && op in ops
      ensures ops[op] == old(ops)[op] && generation >= old(generation)
      ensures quiet ==> S() == old(S()) && log == old(log)
    {
      var rounds: nat := *;
      while rounds > 0
        invariant Valid() && old(log) <= log && op in ops && ops[op] == old(ops)[op]
        invariant generation >= old(generation) && (quiet ==> S() == old(S()) && log == old(log))
      {
        var e: Event := *;
        if !quiet && Enabled(State(generation, writeActive, writer, local, remote, ops, outside), e) && !By(e, op) {
          OtherStep(op, e);
        }
        rounds := rounds - 1;
      }
    }

    /** sync_aliases and save_hme_session, with everything else running in between: committed
        exactly if all that happened since the begin, `between`, overlapped nothing. */
    method SyncAliases(op: nat, quiet: bool) returns (r: SyncResult, ghost between: seq<Event>)
      requires Valid() && op !in ops
      modifies this
      ensures Valid() && old(log) <= log
      ensures r == Busy <==> old(writeActive)
      ensures r == Busy ==> S() == old(S())
      ensures r != Busy ==> Overlooks(old(S()), op, between, S(), r == Committed)
      ensures r == Committed ==> !writeActive && (op !in outside ==> local == remote)
      ensures quiet && !old(writeActive) ==> r == Committed && local == remote == old(remote)
    {
      between := [];
      var busy := BeginAliasSnapshot(op, false);
      if busy {
        return Busy, [];
      }
      ghost var begun, start := S(), log;
      Interference(op, quiet);
      ListAliases(op);
      Interference(op, quiet);
      between := log[|start|..];
      assert log == start + between;
      RunSplits(Start(local0, remote0), start, between);
      RunKeeps(Start(local0, remote0), old(log));
      AppliedIffQuiet(old(S()), op, between);
      RunKeepsFresh(Start(local0, remote0), log);
      var committed := CommitAliasSnapshot(op);
      r := if committed then Committed else DiscardedStale;
    }

    /** deactivate_alias, reactivate_alias and delete_alias: the remote change, a confirming
        list read without the lock, and one locked update of the local table.  `raises` says that
        the remote call does, `answered` how many confirming reads answer. */
    method ChangeAlias(op: nat, stopping: bool, c: Change, raises: bool, answered: nat, quiet: bool)
      returns (done: bool)
      requires Valid() && op !in ops
      modifies this
      ensures Valid() && old(log) <= log
      ensures stopping || old(writer) != Nobody ==> !done && S() == old(S())
      ensures !(stopping || old(writer) != Nobody) ==> writer == Nobody && !writeActive
      ensures done ==> generation > old(generation) && (op !in outside ==> local == remote)
      ensures done ==> AskedFor(op, c, |old(log)|)
      ensures done && c.Deactivate? ==> c.email in local && !local[c.email]
      ensures done && c.Reactivate? ==> c.email in local && local[c.email]
      ensures done && c.Delete? ==> c.email !in local
      ensures quiet && done ==> forall e | e != c.email :: e in local <==> e in old(remote)
      ensures quiet && done ==> forall e | e != c.email && e in local && e in old(remote) :: local[e] == old(remote)[e]
      ensures quiet ==>
                (done <==>
                 && !stopping && old(writer) == Nobody && !raises && answered > 0
                 && c.email in old(local) && old(local)[c.email] == c.Deactivate?
                 && forall e | e in old(local) && !(c.Delete? && e == c.email) :: e in old(remote))
      ensures quiet && done ==> local == remote == Effect(old(remote), c)
      ensures quiet && !done ==> local == old(local)
    {
      var started := BeginRemoteWrite(op, stopping);
      if !started {
        return false;
      }
      done := InWriteChange(op, c, raises, answered, quiet, |old(log)|);
      FinishRemoteWrite(op);
    }

    /** The part between the two ends of the write. */
    method InWriteChange(op: nat, c: Change, raises: bool, answered: nat, quiet: bool, ghost from: nat)
      returns (done: bool)
      requires Valid() && op in ops && ops[op] == Writing && from <= |log|
      modifies this
      ensures Valid() && old(log) <= log && op in ops && ops[op] == Writing && generation >= old(generation)
      ensures done ==> (op !in outside ==> local == remote) && Shows(local, c) && AskedFor(op, c, from)
      ensures quiet ==>
                (done <==>
                 && Changeable(old(local), c) && !raises && answered > 0
                 && Shows(Effect(old(remote), c), c) && Complete(Effect(old(remote), c), old(local), c))
      ensures quiet && done ==> local == remote == Effect(old(remote), c)
      ensures quiet && !done ==> local == old(local)
      ensures quiet && Changeable(old(local), c) && !raises ==> remote == Effect(old(remote), c)
    {
      Interference(op, quiet);
      if !Changeable(local, c) {
        return false;
      }
      Interference(op, quiet);
      var reaches: bool := *;
      if !raises || reaches {
        ChangeRemote(op, Effect(remote, c), c, from);
      }
      if raises {
        return false;
      }
      Interference(op, quiet);
      var tries: nat;
      done, tries := Confirm(op, c, local, answered, quiet, from);
    }

    /** Since the log had `from` entries the change was asked for. */
    ghost predicate AskedFor(op: nat, c: Change, from: nat)
      reads this
    {
      exists k :: from <= k < |log| && log[k].RemoteWrite? && log[k].op == op && Asks(log[k].aliases, c)
    }

    predicate Asks(list: Aliases, c: Change) {
      match c
      case Delete(email) => email !in list
      case _ => c.email in list ==> list[c.email] == c.Reactivate?
    }

    /** _confirmed_remote_aliases and the locked update: the first list that shows the change and is
        complete is applied; with none in three reads the operation fails. */
    method Confirm(op: nat, c: Change, known: Aliases, answered: nat, quiet: bool, ghost from: nat)
      returns (done: bool, tries: nat)
      requires Valid() && op in ops && ops[op] == Writing && AskedFor(op, c, from)
      modifies this
      ensures Valid() && old(log) <= log && op in ops && ops[op] == Writing && AskedFor(op, c, from)
      ensures generation >= old(generation)
      ensures done ==> generation > old(generation) && (op !in outside ==> local == remote) && Shows(local, c)
      ensures quiet ==> (done <==> answered > 0 && Shows(old(remote), c) && Complete(old(remote), known, c))
      ensures quiet ==> remote == old(remote) && local == if done then remote else old(local)
      ensures if done then 1 <= tries <= 3 && tries <= answered else tries == if answered < 3 then answered else 3
    {
      tries := 0;
      for attempt := 0 to CONFIRM_ATTEMPTS
        invariant Valid() && old(log) <= log && op in ops && ops[op] == Writing && generation >= old(generation)
        invariant quiet ==> S() == old(S())
        invariant tries == attempt && attempt <= answered
        invariant quiet && attempt > 0 ==> answered > 0 && !(Shows(old(remote), c) && Complete(old(remote), known, c))
      {
        if attempt == answered {
          return false, tries;
        }
        tries := tries + 1;
        if Shows(remote, c) && Complete(remote, known, c) {
          ConfirmAndApply(op, quiet);
          return true, tries;
        }
        Interference(op, quiet);
      }
      return false, tries;
    }

    method ChangeRemote(op: nat, changed: Aliases, ghost c: Change, ghost from: nat)
      requires Valid() && op in ops && ops[op] == Writing && Asks(changed, c) && from <= |log|
      modifies this
      ensures Valid() && log == old(log) + [RemoteWrite(op, changed)] && S() == old(S()).(remote := changed)
      ensures AskedFor(op, c, from)
    {
      ghost var before := S();
      remote := changed;
      Record(before, RemoteWrite(op, changed));
      assert log[|log| - 1] == RemoteWrite(op, changed);
    }

    method ConfirmAndApply(op: nat, quiet: bool)
      requires Valid() && op in ops && ops[op] == Writing
      modifies this
      ensures Valid() && old(log) <= log && op in ops && ops[op] == Writing
      ensures generation > old(generation) && (op !in outside ==> local == remote)
      ensures local == old(remote) && (quiet ==> remote == old(remote))
    {
      ConfirmChange(op);
      Interference(op, quiet);
      ApplyList(op);
    }

    method ConfirmChange(op: nat)
      requires Valid() && op in ops && ops[op] == Writing
      modifies this
      ensures Valid() && log == old(log) + [ConfirmWrite(op)] && generation == old(generation)
      ensures local == old(local) && remote == old(remote)
      ensures op in ops && ops[op] == Confirmed(remote) && op !in outside
    {
      ghost var before := S();
      ops, outside := ops[op := Confirmed(remote)], outside - {op};
      Record(before, ConfirmWrite(op));
    }

    method ApplyList(op: nat)
      requires Valid() && op in ops && ops[op].Confirmed?
      modifies this
      ensures Valid() && log == old(log) + [ApplyConfirmed(op)] && op in ops && ops[op] == Writing
      ensures generation == old(generation) + 1 && local == old(ops)[op].list && remote == old(remote)
      ensures op !in outside ==> local == remote
    {
      RunKeepsFresh(Start(local0, remote0), log);
      ghost var before := S();
      local, generation, ops := ops[op].list, generation + 1, ops[op := Writing];
      Record(before, ApplyConfirmed(op));
    }
  }
}
