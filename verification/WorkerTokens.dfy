/** Access tokens on the Worker: the conditional upsert of cloudflare-mailbox/src/aliases/repository.ts,
    the read-then-write operations of cloudflare-mailbox/src/aliases/service.ts, and the background
    push of icloud_gateway/service.py. */
module WorkerTokens {
  import opened Options

  /** The two digests of one key: bound to the alias, and for looking the alias up. */
  datatype Token = Token(alias: string, key: string)
  datatype Lookup = Lookup(key: string)

  datatype Row = Row(token: Option<Token>, lookup: Option<Lookup>, active: bool)

  type Table = map<string, Row>

  datatype Write = Write(token: Option<Token>, lookup: Option<Lookup>, active: bool, replace: bool)

  datatype Reply = Done(active: bool, hasAccessKey: bool) | Conflict | NotFound | DatabaseError

  // ---------------------------------------------------------------- the table

  /** Both digests of one key or none; an inactive alias has none. */
  predicate RowSound(alias: string, r: Row) {
    || (r.token.None? && r.lookup.None?)
    || (r.token.Some? && r.lookup.Some? && r.token.value == Token(alias, r.lookup.value.key) && r.active)
  }

  /** The rows are sound and the index on the lookup digest is unique. */
  predicate Sound(table: Table) {
    && (forall a | a in table :: RowSound(a, table[a]))
    && (forall a, b | a in table && b in table && a != b && table[a].lookup.Some? :: table[a].lookup != table[b].lookup)
  }

  function Get(table: Table, alias: string): Option<Row> { if alias in table then Some(table[alias]) else None }

  function TokenOf(row: Option<Row>): Option<Token> { if row.None? then None else row.value.token }

  /** INSERT ... ON CONFLICT DO UPDATE: the row afterwards. */
  function Upserted(row: Option<Row>, w: Write): Row {
    if row.None? then Row(w.token, w.lookup, w.active) else
    var r := row.value;
    var take := w.replace || r.token.None?;
    if take || w.token.None? || r.token == w.token
    then Row(if take then w.token else r.token, if take then w.lookup else r.lookup, w.active)
    else r
  }

  /** No result when the statement breaks the unique index. */
  function Written(table: Table, alias: string, w: Write): Option<Table> {
    var row := Upserted(Get(table, alias), w);
    if row.lookup.Some? && exists b | b in table :: b != alias && table[b].lookup == row.lookup then None
    else Some(table[alias := row])
  }

  /** Another alias holds the key. */
  predicate Taken(table: Table, alias: string, key: string) {
    exists b | b in table :: b != alias && table[b].lookup == Some(Lookup(key))
  }

  /** The alias holds another key. */
  predicate OtherToken(table: Table, alias: string, key: string) {
    TokenOf(Get(table, alias)).Some? && TokenOf(Get(table, alias)) != Some(Token(alias, key))
  }

  predicate WriteSound(alias: string, w: Write) {
    RowSound(alias, Row(w.token, w.lookup, w.active)) && (!w.active ==> w.replace)
  }

  lemma WrittenKeepsSound(table: Table, alias: string, w: Write)
    requires Sound(table) && WriteSound(alias, w)
    ensures Written(table, alias, w).Some? ==> Sound(Written(table, alias, w).value)
  {
    var row := Upserted(Get(table, alias), w);
    assert RowSound(alias, row);
    if Written(table, alias, w).Some? {
      assert forall b | b in table && b != alias && row.lookup.Some? :: table[b].lookup != row.lookup;
    }
  }

  // ---------------------------------------------------------------- what the service writes

  /** AliasService.upsert after it has read `seen`; an empty key means none was sent. */
  function Planned(alias: string, active: bool, key: string, seen: Option<Row>): Write {
    var had := if seen.None? then (None, None) else (seen.value.token, seen.value.lookup);
    var now := if !active then (None, None)
               else if key != "" then (Some(Token(alias, key)), Some(Lookup(key)))
               else had;
    Write(now.0, now.1, active, !active || had.0.None?)
  }

  /** AliasService.issueKey for a row that exists. */
  function Issued(alias: string, key: string, replaceExisting: bool, seen: Row): Write {
    Write(Some(Token(alias, key)), Some(Lookup(key)), true, replaceExisting || seen.token.None?)
  }

  lemma PlannedSound(alias: string, active: bool, key: string, seen: Option<Row>)
    requires seen.Some? ==> RowSound(alias, seen.value)
    ensures WriteSound(alias, Planned(alias, active, key, seen))
  {}

  /** Without a key nothing can clash. */
  lemma KeylessIsWritten(table: Table, alias: string, active: bool)
    requires Sound(table)
    ensures Written(table, alias, Planned(alias, active, "", Get(table, alias))).Some?
  {}

  /** What a push must have read in order to leave the token alone that it meets at its write. */
  predicate Harmless(alias: string, key: string, seen: Option<Token>, met: Token) {
    seen.Some? || (key != "" && met == Token(alias, key))
  }

  /** A push (state active) leaves a stored token untouched if and only if it has read one, or
      would write the same.  Where it meets none, there is still none exactly if it sent no key
      and has read none: a key it read comes back if it was revoked meanwhile. */
  lemma PushLeavesTokenIff(alias: string, key: string, seen: Option<Row>, met: Option<Row>)
    requires (seen.Some? ==> RowSound(alias, seen.value)) && (met.Some? ==> RowSound(alias, met.value))
    ensures var after := Upserted(met, Planned(alias, true, key, seen)).token;
            if TokenOf(met).Some?
            then after == TokenOf(met) <==> Harmless(alias, key, TokenOf(seen), TokenOf(met).value)
            else after == None <==> TokenOf(seen).None? && key == ""
  {}

  /** An issued key is the alias's afterwards if and only if it may replace the token, or has read
      or meets none, or meets itself: one that has read no token replaces one stored meanwhile. */
  lemma IssueWinsIff(alias: string, key: string, replaceExisting: bool, seen: Row, met: Option<Row>)
    requires met.Some? ==> RowSound(alias, met.value)
    ensures Upserted(met, Issued(alias, key, replaceExisting, seen)).token == Some(Token(alias, key))
       <==> replaceExisting || seen.token.None? || TokenOf(met).None? || TokenOf(met).value == Token(alias, key)
  {}

  /** The excluded run: a keyless push reads a row without a token, a key is issued, and the push
      then writes the absence it read over the key.  Every write is sound. */
  lemma PushErasesIssuedKey(alias: string, key: string) returns (seen: Table, issued: Table, after: Table)
    requires key != ""
    ensures Sound(seen) && Sound(issued) && Sound(after) && alias in seen && alias in issued && alias in after
    ensures Written(seen, alias, Issued(alias, key, false, seen[alias])) == Some(issued)
    ensures Written(issued, alias, Planned(alias, true, "", Get(seen, alias))) == Some(after)
    ensures issued[alias].token == Some(Token(alias, key)) && after[alias].token == None
  {
    seen := map[alias := Row(None, None, true)];
    issued := seen[alias := Row(Some(Token(alias, key)), Some(Lookup(key)), true)];
    after := issued[alias := Row(None, None, true)];
  }

  // ---------------------------------------------------------------- every interleaving

  datatype Request =
    | Set(active: bool, key: string)
    | Issue(key: string, replaceExisting: bool)
    | Revoke
    | Remove

  /** A request between its read and its write. */
  datatype Pending = Pending(alias: string, request: Request, seen: Option<Row>)

  datatype System = System(table: Table, pending: map<nat, Pending>)

  datatype Step = Reads(op: nat, alias: string, request: Request) | Writes(op: nat)

  predicate Enabled(s: System, e: Step) {
    match e
    case Reads(op, _, request) => op !in s.pending && (request.Issue? ==> request.key != "")
    case Writes(op) => op in s.pending
  }

  /** The write of a request; a statement that breaks the unique index changes nothing. */
  function Effect(table: Table, p: Pending): Table {
    match p.request
    case Set(active, key) => Stored(table, p.alias, Planned(p.alias, active, key, p.seen))
    case Issue(key, replace) =>
      if p.seen.None? then table else Stored(table, p.alias, Issued(p.alias, key, replace, p.seen.value))
    case Revoke => if p.seen.None? || p.alias !in table then table else table[p.alias := Row(None, None, true)]
    case Remove => if p.seen.None? then table else table - {p.alias}
  }

  function Stored(table: Table, alias: string, w: Write): Table {
    if Written(table, alias, w).Some? then Written(table, alias, w).value else table
  }

  /** Issuing a key for a row that was not there goes on as an upsert with a read of its own. */
  function Apply(s: System, e: Step): System
    requires Enabled(s, e)
  {
    match e
    case Reads(op, alias, request) => s.(pending := s.pending[op := Pending(alias, request, Get(s.table, alias))])
    case Writes(op) =>
      var p := s.pending[op];
      if p.request.Issue? && p.seen.None?
      then s.(pending := s.pending[op := Pending(p.alias, Set(true, p.request.key), Get(s.table, p.alias))])
      else System(Effect(s.table, p), s.pending - {op})
  }

  predicate Legal(s: System, run: seq<Step>)
    decreases run
  {
    run == [] || (Enabled(s, run[0]) && Legal(Apply(s, run[0]), run[1..]))
  }

  function Exec(s: System, run: seq<Step>): System
    requires Legal(s, run)
    decreases run
  {
    if run == [] then s else Exec(Apply(s, run[0]), run[1..])
  }

  /** The table is sound, and whatever a request has read was sound when it was read. */
  predicate Inv(s: System) {
    Sound(s.table) && forall op | op in s.pending && s.pending[op].seen.Some? ::
      RowSound(s.pending[op].alias, s.pending[op].seen.value)
  }

  lemma EffectKeepsSound(table: Table, p: Pending)
    requires Sound(table) && (p.seen.Some? ==> RowSound(p.alias, p.seen.value))
    ensures Sound(Effect(table, p))
  {
    match p.request
    case Set(active, key) =>
      PlannedSound(p.alias, active, key, p.seen);
      WrittenKeepsSound(table, p.alias, Planned(p.alias, active, key, p.seen));
    case Issue(key, replace) =>
      if p.seen.Some? {
        WrittenKeepsSound(table, p.alias, Issued(p.alias, key, replace, p.seen.value));
      }
    case _ =>
  }

  lemma StepKeeps(s: System, e: Step)
    requires Inv(s) && Enabled(s, e)
    ensures Inv(Apply(s, e))
  {
    if e.Writes? {
      EffectKeepsSound(s.table, s.pending[e.op]);
    }
  }

  /** However requests interleave their reads and writes, both digests of a token are of one key
      or absent, an inactive alias has none, and no key is on two aliases. */
  lemma {:induction false} EveryRunStaysSound(s: System, run: seq<Step>)
    requires Inv(s) && Legal(s, run)
    ensures Inv(Exec(s, run)) && Sound(Exec(s, run).table)
    decreases run
  {
    if run != [] {
      StepKeeps(s, run[0]);
      EveryRunStaysSound(Apply(s, run[0]), run[1..]);
    }
  }

  /** The step writes the row of another alias, or none. */
  predicate Elsewhere(s: System, e: Step, alias: string)
    requires Enabled(s, e)
  {
    e.Writes? ==> s.pending[e.op].alias != alias
  }

  predicate AllElsewhere(s: System, run: seq<Step>, alias: string, op: nat)
    requires Legal(s, run)
    decreases run
  {
    run == [] || (Elsewhere(s, run[0], alias) && run[0] != Writes(op)
                  && AllElsewhere(Apply(s, run[0]), run[1..], alias, op))
  }

  lemma {:induction false} OthersLeaveRow(s: System, run: seq<Step>, alias: string, op: nat)
    requires Inv(s) && Legal(s, run) && AllElsewhere(s, run, alias, op) && op in s.pending
    ensures Get(Exec(s, run).table, alias) == Get(s.table, alias)
    ensures op in Exec(s, run).pending && Exec(s, run).pending[op] == s.pending[op]
    decreases run
  {
    if run != [] {
      StepKeeps(s, run[0]);
      OthersLeaveRow(Apply(s, run[0]), run[1..], alias, op);
    }
  }

  /** A background push with no other write to its alias in between, amid any number of requests
      for other aliases, never changes or removes a stored token. */
  lemma LonePushKeepsToken(s: System, op: nat, alias: string, key: string, run: seq<Step>)
    requires Inv(s) && op !in s.pending && TokenOf(Get(s.table, alias)).Some?
    requires var t := Apply(s, Reads(op, alias, Set(true, key))); Legal(t, run) && AllElsewhere(t, run, alias, op)
    ensures var t := Exec(Apply(s, Reads(op, alias, Set(true, key))), run);
            Enabled(t, Writes(op)) && TokenOf(Get(Apply(t, Writes(op)).table, alias)) == TokenOf(Get(s.table, alias))
  {
    var t := Apply(s, Reads(op, alias, Set(true, key)));
    StepKeeps(s, Reads(op, alias, Set(true, key)));
    OthersLeaveRow(t, run, alias, op);
    assert RowSound(alias, s.table[alias]);
  }

  // ---------------------------------------------------------------- authentication

  /** AliasService.authenticate: the row of the address holds the digest of the supplied key. */
  predicate Opens(table: Table, alias: string, key: string) {
    alias in table && table[alias].active && table[alias].token == Some(Token(alias, key))
  }

  /** AliasService.authenticateToken: the row found by the lookup digest is checked once more. */
  ghost function Resolved(table: Table, key: string): Option<string> {
    if a: string :| a in table && table[a].lookup == Some(Lookup(key)) then
                    if Opens(table, a, key) then Some(a) else None
    else None
  }

  /** Both doors open for the same alias, and a key opens at most one. */
  lemma TwoDoorsAgree(table: Table, alias: string, key: string)
    requires Sound(table)
    ensures Resolved(table, key) == Some(alias) <==> Opens(table, alias, key)
  {
    if Opens(table, alias, key) {
      assert RowSound(alias, table[alias]);
    }
  }

  /** What a request has done to the row of its alias when nobody else wrote that row since its
      read; `was` is the row it read, `taken` whether another alias held its key at the write. */
  predicate Achieved(table: Table, alias: string, request: Request, was: Option<Row>, taken: bool) {
    match request
    case Revoke => if was.None? then alias !in table else Get(table, alias) == Some(Row(None, None, true))
    case Remove => alias !in table
    case Issue(key, replace) => was.Some? ==>
      (Opens(table, alias, key) <==>
       was.value.token == Some(Token(alias, key)) || (!taken && (replace || was.value.token.None?)))
    case Set(active, key) =>
      if !active then Get(table, alias) == Some(Row(None, None, false))
      else if TokenOf(was).Some? then TokenOf(Get(table, alias)) == TokenOf(was)
      else if key == "" then Get(table, alias) == Some(Row(None, None, true))
      else Opens(table, alias, key) <==> !taken
  }

  predicate TakesKey(request: Request, table: Table, alias: string) {
    (request.Issue? || request.Set?) && Taken(table, alias, request.key)
  }

  /** The request has just read the row. */
  predicate JustRead(s: System, op: nat) {
    op in s.pending && s.pending[op].seen == Get(s.table, s.pending[op].alias)
  }

  /** A request whose alias nobody else writes between its read and its write does what it is for,
      amid any number of requests for other aliases, and its write leaves every other row alone.
      Issuing a key for a row that was not there goes on as an upsert that has just read. */
  lemma LoneRequestTakesEffect(s: System, op: nat, run: seq<Step>)
    requires Inv(s) && JustRead(s, op) && Legal(s, run) && AllElsewhere(s, run, s.pending[op].alias, op)
    ensures var Pending(alias, request, was) := s.pending[op];
            var t := Exec(s, run);
            && Enabled(t, Writes(op))
            && var u := Apply(t, Writes(op));
            && (forall b | b != alias :: Get(u.table, b) == Get(t.table, b))
            && Achieved(u.table, alias, request, was, TakesKey(request, t.table, alias))
            && if request.Issue? && was.None?
               then JustRead(u, op) && u.pending[op].alias == alias && u.pending[op].request == Set(true, request.key)
               else op !in u.pending
  {
    var Pending(alias, request, was) := s.pending[op];
    OthersLeaveRow(s, run, alias, op);
    EveryRunStaysSound(s, run);
    if !(request.Issue? && was.None?) {
      LoneEffect(Exec(s, run).table, alias, request, was);
    }
  }

  lemma LoneEffect(table: Table, alias: string, request: Request, was: Option<Row>)
    requires Sound(table) && was == Get(table, alias) && (request.Issue? ==> was.Some?)
    ensures var after := Effect(table, Pending(alias, request, was));
            && (forall b | b != alias :: Get(after, b) == Get(table, b))
            && Achieved(after, alias, request, was, TakesKey(request, table, alias))
  {
    if was.Some? {
      assert RowSound(alias, was.value);
    }
  }

  // ---------------------------------------------------------------- the Worker

  class AliasWorker {
    var table: Table
    /** Whether other requests run between the reads and the writes of this one. */
    const shared: bool

    ghost predicate Valid()
      reads this
    {
      Sound(table)
    }

    constructor (shared: bool)
      ensures Valid() && table == map[] && this.shared == shared
    {
      this.shared, table := shared, map[];
    }

    /** Any number of other requests: WrittenKeepsSound and the methods below are what they do. */
    method Elsewhere()
      requires Valid()
      modifies this`table
      ensures Valid() && (!shared ==> table == old(table))
    {
      var other: Table := *;
      if shared && Sound(other) {
        table := other;
      }
    }

    /** AliasRepository.upsert */
    method Put(alias: string, w: Write) returns (ok: bool)
      requires Valid() && WriteSound(alias, w)
      modifies this`table
      ensures Valid()
      ensures ok <==> Written(old(table), alias, w).Some?
      ensures table == if ok then Written(old(table), alias, w).value else old(table)
    {
      WrittenKeepsSound(table, alias, w);
      var result := Written(table, alias, w);
      ok := result.Some?;
      if ok {
        table := result.value;
      }
    }

    /** AliasService.upsert; `seen` is what it read and `met` the table its write met. */
    method Upsert(alias: string, active: bool, key: string)
      returns (reply: Reply, ghost seen: Option<Row>, ghost met: Table)
      requires Valid()
      modifies this`table
      ensures Valid() && Sound(met)
      ensures !shared ==> seen == Get(old(table), alias) && met == old(table)
      ensures reply == DatabaseError <==> Written(met, alias, Planned(alias, active, key, seen)).None?
      ensures !shared && reply != DatabaseError ==>
                Some(table) == Written(met, alias, Planned(alias, active, key, seen))
      ensures !shared && reply == DatabaseError ==> table == old(table)
      ensures !shared ==> !reply.NotFound?
      ensures !shared ==> forall a | a != alias :: Get(table, a) == Get(old(table), a)
      // alone: a state is set unless another token is in the way, and a token stays or is the one sent
      ensures !shared && reply.Done? ==>
                && alias in table && table[alias].active == active
                && reply == Done(active, table[alias].token.Some?)
                && table[alias].token
                   == if !active then None
                      else if alias in old(table) && old(table)[alias].token.Some? then old(table)[alias].token
                      else if key != "" then Some(Token(alias, key)) else None
      ensures !shared && reply == Conflict ==> alias in table && Get(table, alias) == Get(old(table), alias)
      ensures reply == Conflict <==> reply != DatabaseError && reply != NotFound && active && key != ""
                                     && TokenOf(seen).Some? && TokenOf(seen) != Some(Token(alias, key))
    {
      var row := Get(table, alias);
      seen := row;
      Elsewhere();
      met := table;
      PlannedSound(alias, active, key, row);
      var ok := Put(alias, Planned(alias, active, key, row));
      if !ok {
        return DatabaseError, seen, met;
      }
      Elsewhere();
      if alias !in table {
        return NotFound, seen, met;
      }
      if active && key != "" && TokenOf(row).Some? && TokenOf(row) != Some(Token(alias, key)) {
        return Conflict, seen, met;
      }
      return Done(table[alias].active, table[alias].token.Some?), seen, met;
    }

    /** AliasService.issueKey.  Asked to replace, or without an earlier token, the key is in. */
    method IssueKey(alias: string, key: string, replaceExisting: bool) returns (reply: Reply)
      requires Valid() && key != ""
      modifies this`table
      ensures Valid()
      ensures !shared && reply.Done? ==> Opens(table, alias, key)
      ensures !shared ==> (reply == Conflict <==> !replaceExisting && OtherToken(old(table), alias, key))
      ensures !shared && reply == Conflict ==>
                alias in table && table[alias].token == old(table)[alias].token
      ensures !shared ==> (reply == DatabaseError <==> reply != Conflict && Taken(old(table), alias, key))
      ensures !shared && reply == DatabaseError ==> table == old(table)
      ensures !shared ==> reply != NotFound && forall a | a != alias :: Get(table, a) == Get(old(table), a)
    {
      var row := Get(table, alias);
      Elsewhere();
      if row.None? {
        var first, _, _ := Upsert(alias, true, key);
        if !first.Done? {
          return first;
        }
      } else {
        var ok := Put(alias, Issued(alias, key, replaceExisting, row.value));
        if !ok {
          return DatabaseError;
        }
        if row.value.token.Some? && !replaceExisting && row.value.token != Some(Token(alias, key)) {
          return Conflict;
        }
      }
      Elsewhere();
      if alias !in table {
        return NotFound;
      }
      return Done(table[alias].active, table[alias].token.Some?);
    }

    /** AliasService.revokeKey, whose update also makes the alias active. */
    method RevokeKey(alias: string) returns (reply: Reply)
      requires Valid()
      modifies this`table
      ensures Valid()
      ensures reply.NotFound? || reply == Done(true, false)
      ensures !shared && reply.Done? ==> alias in old(table) && table == old(table)[alias := Row(None, None, true)]
      ensures reply.NotFound? && !shared ==> alias !in old(table) && table == old(table)
    {
      if alias !in table {
        return NotFound;
      }
      Elsewhere();
      if alias in table {
        table := table[alias := Row(None, None, true)];
      }
      return Done(true, false);
    }

    /** AliasService.setState.  Switching off takes the key away, switching on gives none. */
    method SetState(alias: string, active: bool) returns (reply: Reply)
      requires Valid()
      modifies this`table
      ensures Valid()
      ensures !shared ==>
                reply.Done? && alias in table && table[alias].active == active
                && table[alias].token == (if active then TokenOf(Get(old(table), alias)) else None)
                && forall a | a != alias :: Get(table, a) == Get(old(table), a)
    {
      KeylessIsWritten(table, alias, active);
      var answer, _, _ := Upsert(alias, active, "");
      return answer;
    }

    /** AliasService.delete */
    method Delete(alias: string) returns (reply: Reply)
      requires Valid()
      modifies this`table
      ensures Valid()
      ensures !shared ==> table == old(table) - {alias}
    {
      if alias !in table {
        return NotFound;
      }
      Elsewhere();
      table := table - {alias};
      return Done(false, false);
    }
  }

  // ---------------------------------------------------------------- the background push

  datatype Status = Unknown | Present | Absent | NoAlias

  /** A local alias: its key if it can be revealed, and the last known status of the Worker. */
  datatype Local = Local(alias: string, active: bool, key: Option<string>, status: Status)

  function StatusOf(table: Table, alias: string): Status {
    if alias !in table then NoAlias else if table[alias].token.Some? then Present else Absent
  }

  /** The local status says what the Worker holds. */
  predicate Told(table: Table, l: Local) {
    && (l.status == NoAlias <==> l.alias !in table)
    && (l.status == Present <==> l.alias in table && table[l.alias].token != None)
    && (l.status == Absent <==> l.alias in table && table[l.alias].token == None)
  }

  lemma AllTold(table: Table, was: seq<Local>, locals: seq<Local>, failing: set<nat>)
    requires |was| == |locals|
    requires forall i | 0 <= i < |locals| ::
               locals[i].status == if i / STATUS_BATCH in failing then was[i].status
               else StatusOf(table, locals[i].alias)
    ensures forall i | 0 <= i < |locals| ::
              if i / 50 in failing then locals[i].status == was[i].status else Told(table, locals[i])
  {}

  /** The key a push sends. */
  function Sent(l: Local): string { if l.status.Present? || l.key.None? then "" else l.key.value }

  predicate Fresh(locals: seq<Local>, table: Table) {
    forall i | 0 <= i < |locals| :: locals[i].status == StatusOf(table, locals[i].alias)
  }

  /** Everything but the status is the same. */
  ghost predicate SameAliases(was: seq<Local>, now: seq<Local>) {
    |was| == |now| && forall i | 0 <= i < |was| :: now[i] == was[i].(status := now[i].status)
  }

  predicate HasToken(table: Table, alias: string) { alias in table && table[alias].token.Some? }

  /** Tokens once stored are still there. */
  ghost predicate TokensKept(was: Table, now: Table) {
    forall a | a in was && was[a].token.Some? :: a in now && now[a].token == was[a].token
  }

  /** The Worker refuses the key that is sent: the alias has another one, or another alias has it. */
  predicate Refused(table: Table, l: Local) {
    Sent(l) != "" && (OtherToken(table, l.alias, Sent(l)) || Taken(table, l.alias, Sent(l)))
  }

  /** No address and no key is there twice. */
  predicate Different(locals: seq<Local>) {
    forall i, j | 0 <= i < j < |locals| :: Apart(locals[i], locals[j])
  }

  predicate Apart(l: Local, m: Local) {
    l.alias != m.alias && (l.key.Some? ==> l.key != m.key)
  }

  /** What a push that arrives makes of the table. */
  function Pushed(table: Table, l: Local): Table {
    var written := Written(table, l.alias, Planned(l.alias, true, Sent(l), Get(table, l.alias)));
    if written.Some? then written.value else table
  }

  /** A push changes its own row only, no stored token, and stores no key but its own. */
  lemma PushedIs(table: Table, l: Local)
    requires Sound(table)
    ensures var now := Pushed(table, l);
            && Sound(now) && TokensKept(table, now)
            && (forall a | a != l.alias :: Get(now, a) == Get(table, a))
            && (forall key | Lookups(now, l.alias, key) :: Lookups(table, l.alias, key) || key == Sent(l))
            && (!Refused(table, l) ==> l.alias in now && now[l.alias].active)
            && (!Refused(table, l) && Sent(l) != "" ==> HasToken(now, l.alias))
  {
    var plan := Planned(l.alias, true, Sent(l), Get(table, l.alias));
    PlannedSound(l.alias, true, Sent(l), Get(table, l.alias));
    WrittenKeepsSound(table, l.alias, plan);
  }

  /** The two ways in which the Worker answers a push with an error. */
  lemma RefusedIs(table: Table, l: Local)
    requires Sound(table)
    ensures var clash := Written(table, l.alias, Planned(l.alias, true, Sent(l), Get(table, l.alias))).None?;
            Refused(table, l) <==> clash || (Sent(l) != "" && OtherToken(table, l.alias, Sent(l)))
  {
    if l.alias in table {
      assert RowSound(l.alias, table[l.alias]);
    }
  }

  predicate Lookups(table: Table, alias: string, key: string) {
    alias in table && table[alias].lookup == Some(Lookup(key))
  }

  /** So it does not change whether the push of another alias with another key is refused. */
  lemma RefusedAsBefore(table: Table, m: Local, l: Local)
    requires Sound(table) && Apart(l, m) && Apart(m, l)
    ensures Refused(Pushed(table, m), l) <==> Refused(table, l)
  {
    PushedIs(table, m);
    var now := Pushed(table, m);
    if Sent(l) != "" {
      assert Get(now, l.alias) == Get(table, l.alias);
      if Taken(table, l.alias, Sent(l)) {
        var b :| b in table && b != l.alias && table[b].lookup == Some(Lookup(Sent(l)));
        assert Get(now, b) == Get(table, b) || b == m.alias;
        assert now[b].lookup == Some(Lookup(Sent(l))) by {
          assert RowSound(b, table[b]) && RowSound(b, now[b]);
        }
      }
      if Taken(now, l.alias, Sent(l)) {
        var b :| b in now && b != l.alias && now[b].lookup == Some(Lookup(Sent(l)));
        if b == m.alias {
          assert Lookups(now, b, Sent(l));
        } else {
          assert Get(now, b) == Get(table, b);
        }
      }
    }
  }

  function Actives(locals: seq<Local>): (payloads: seq<Local>)
    ensures |payloads| <= |locals| && forall l :: l in payloads <==> l in locals && l.active
  {
    if locals == [] then [] else
    var init, last := locals[..|locals| - 1], locals[|locals| - 1];
    assert locals == init + [last];
    Actives(init) + if last.active then [last] else []
  }

  lemma {:induction false} ActivesDifferent(locals: seq<Local>)
    requires Different(locals)
    ensures Different(Actives(locals))
  {
    if locals != [] {
      var init, last := locals[..|locals| - 1], locals[|locals| - 1];
      ActivesDifferent(init);
      forall l | l in Actives(init) ensures Apart(l, last) {
        var i :| 0 <= i < |init| && init[i] == l;
        assert locals[i] == l;
      }
    }
  }

  /** The pushes that are made: a probe without a reply is the only one. */
  function Tried(payloads: seq<Local>, lost: set<string>): seq<Local> {
    if payloads != [] && payloads[0].alias in lost then payloads[..1] else payloads
  }

  /** The table after the pushes that arrive. */
  function AllPushed(table: Table, payloads: seq<Local>, unsent: set<string>): Table {
    if payloads == [] then table else
    var init, last := payloads[..|payloads| - 1], payloads[|payloads| - 1];
    var before := AllPushed(table, init, unsent);
    if last.alias in unsent then before else Pushed(before, last)
  }

  /** A push that is answered and accepted; `table` is the one before the first push. */
  predicate Answers(l: Local, lost: set<string>, table: Table) { l.alias !in lost && !Refused(table, l) }

  /** A local alias that is said to have a token has one. */
  predicate KnowsToken(l: Local, table: Table) { l.status.Present? ==> HasToken(table, l.alias) }

  /** The first `end` pushes are answered and accepted. */
  ghost predicate AllAnswer(payloads: seq<Local>, end: nat, lost: set<string>, table: Table)
    requires end <= |payloads|
  {
    forall k | 0 <= k < end :: Answers(payloads[k], lost, table)
  }

  /** The first `end` aliases with a key have a token. */
  ghost predicate AllHold(payloads: seq<Local>, end: nat, was: Table, now: Table)
    requires end <= |payloads|
  {
    forall k | 0 <= k < end && payloads[k].key.Some? && KnowsToken(payloads[k], was) ::
      HasToken(now, payloads[k].alias)
  }

  lemma OneMorePushed(table: Table, payloads: seq<Local>, i: nat, unsent: set<string>)
    requires i < |payloads|
    ensures AllPushed(table, payloads[..i + 1], unsent)
         == var before := AllPushed(table, payloads[..i], unsent);
            if payloads[i].alias in unsent then before else Pushed(before, payloads[i])
  {
    assert payloads[..i + 1][..i] == payloads[..i];
  }

  ghost predicate SameRefusals(payloads: seq<Local>, from: nat, was: Table, now: Table) {
    forall k | from <= k < |payloads| :: Refused(now, payloads[k]) <==> Refused(was, payloads[k])
  }

  lemma RefusalsStay(payloads: seq<Local>, i: nat, was: Table, before: Table, unsent: set<string>)
    requires Sound(before) && Different(payloads) && i < |payloads| && SameRefusals(payloads, i, was, before)
    ensures SameRefusals(payloads, i + 1, was,
                         if payloads[i].alias in unsent then before else Pushed(before, payloads[i]))
  {
    forall k | i < k < |payloads| && payloads[i].alias !in unsent
      ensures Refused(Pushed(before, payloads[i]), payloads[k]) <==> Refused(was, payloads[k])
    {
      RefusedAsBefore(before, payloads[i], payloads[k]);
    }
  }

  lemma ActivesAnswer(locals: seq<Local>, lost: set<string>, table: Table)
    ensures AllAnswer(Actives(locals), |Actives(locals)|, lost, table)
       <==> forall l | l in locals && l.active :: Answers(l, lost, table)
  {
    if AllAnswer(Actives(locals), |Actives(locals)|, lost, table) {
      forall l | l in locals && l.active ensures Answers(l, lost, table) {
        var k :| 0 <= k < |Actives(locals)| && Actives(locals)[k] == l;
      }
    } else {
      var k :| 0 <= k < |Actives(locals)| && !Answers(Actives(locals)[k], lost, table);
      assert Actives(locals)[k] in Actives(locals);
    }
  }

  lemma ActivesHold(locals: seq<Local>, was: Table, now: Table)
    requires AllHold(Actives(locals), |Actives(locals)|, was, now) && Fresh(locals, was)
    ensures forall i | 0 <= i < |locals| && locals[i].active && locals[i].key.Some? :: HasToken(now, locals[i].alias)
  {
    forall i | 0 <= i < |locals| && locals[i].active && locals[i].key.Some? ensures HasToken(now, locals[i].alias) {
      assert locals[i] in locals && KnowsToken(locals[i], was);
      var k :| 0 <= k < |Actives(locals)| && Actives(locals)[k] == locals[i];
    }
  }

  /** What holds after the first `end` pushes; `good` says that none of them failed. */
  ghost predicate Sofar(payloads: seq<Local>, end: nat, was: Table, now: Table, unsent: set<string>,
                        lost: set<string>, good: bool)
    requires end <= |payloads|
  {
    && TokensKept(was, now) && now == AllPushed(was, payloads[..end], unsent)
    && (good ==> AllHold(payloads, end, was, now))
    && (Different(payloads) ==>
          SameRefusals(payloads, end, was, now) && (good <==> AllAnswer(payloads, end, lost, was)))
  }

  lemma SofarStart(payloads: seq<Local>, was: Table, unsent: set<string>, lost: set<string>)
    ensures Sofar(payloads, 0, was, was, unsent, lost, true)
  {}

  lemma ProbeFails(payloads: seq<Local>, lost: set<string>, table: Table)
    requires payloads != [] && payloads[0].alias in lost
    ensures Tried(payloads, lost) == payloads[..1] && !AllAnswer(payloads, |payloads|, lost, table)
  {
    assert !Answers(payloads[0], lost, table);
  }

  lemma SofarNext(payloads: seq<Local>, i: nat, was: Table, before: Table, now: Table, unsent: set<string>,
                  lost: set<string>, good: bool, answered: bool)
    requires Sound(before) && i < |payloads| && Sofar(payloads, i, was, before, unsent, lost, good)
    requires TokensKept(before, now)
    requires now == if payloads[i].alias in unsent then before else Pushed(before, payloads[i])
    requires answered <==> Answers(payloads[i], lost, before)
    requires answered && payloads[i].key.Some? && KnowsToken(payloads[i], before) ==> HasToken(now, payloads[i].alias)
    ensures Sofar(payloads, i + 1, was, now, unsent, lost, good && answered)
  {
    OneMorePushed(was, payloads, i, unsent);
    if good && answered {
      MoreHold(payloads, i, was, before, now);
    }
    if Different(payloads) {
      RefusalsStay(payloads, i, was, before, unsent);
    }
  }

  lemma MoreHold(payloads: seq<Local>, i: nat, was: Table, before: Table, now: Table)
    requires i < |payloads| && AllHold(payloads, i, was, before) && TokensKept(was, before) && TokensKept(before, now)
    requires payloads[i].key.Some? && KnowsToken(payloads[i], before) ==> HasToken(now, payloads[i].alias)
    ensures AllHold(payloads, i + 1, was, now)
  {}

  const STATUS_BATCH := 50

  /** How many of the first `end` aliases are in a batch that fails. */
  function Unchecked(end: nat, failing: set<nat>): nat {
    if end == 0 then 0 else Unchecked(end - 1, failing) + if (end - 1) / STATUS_BATCH in failing then 1 else 0
  }

  lemma {:induction false} BatchSize(batch: nat, end: nat, failing: set<nat>)
    requires STATUS_BATCH * batch <= end <= STATUS_BATCH * (batch + 1)
    ensures Unchecked(end, failing)
         == Unchecked(STATUS_BATCH * batch, failing) + if batch in failing then end - STATUS_BATCH * batch else 0
    decreases end
  {
    if end > STATUS_BATCH * batch {
      BatchSize(batch, end - 1, failing);
      assert (end - 1) / STATUS_BATCH == batch;
    }
  }

  lemma {:induction false} NoneUnchecked(end: nat, failing: set<nat>)
    ensures Unchecked(end, failing) == 0 <==> forall i: nat | i < end :: i / STATUS_BATCH !in failing
  {
    if end > 0 {
      NoneUnchecked(end - 1, failing);
    }
  }

  class EdgePush {
    const worker: AliasWorker
    var locals: seq<Local>

    ghost predicate Valid()
      reads this, worker
    {
      worker.Valid() && !worker.shared && forall i | 0 <= i < |locals| :: locals[i].key != Some("")
    }

    constructor (worker: AliasWorker, locals: seq<Local>)
      requires worker.Valid() && !worker.shared && forall i | 0 <= i < |locals| :: locals[i].key != Some("")
      ensures Valid() && this.worker == worker && this.locals == locals
    {
      this.worker, this.locals := worker, locals;
    }

    /** reconcile_edge_key_status: batches of fifty; those numbered in `failing` fail as a whole. */
    method CheckStatus(failing: set<nat>) returns (failed: nat)
      requires Valid()
      modifies this`locals
      ensures Valid() && SameAliases(old(locals), locals)
      ensures forall i | 0 <= i < |locals| ::
                if i / 50 in failing then locals[i].status == old(locals)[i].status
                else Told(worker.table, locals[i])
      ensures failed == Unchecked(|locals|, failing)
      ensures failed == 0 <==> forall i: nat | i < |locals| :: i / 50 !in failing
      ensures failed == 0 ==> Fresh(locals, worker.table)
    {
      failed := 0;
      ghost var was := locals;
      var batch := 0;
      while STATUS_BATCH * batch < |locals|
        invariant SameAliases(was, locals) && Valid() && batch >= 0
        invariant STATUS_BATCH * batch >= |locals| || failed == Unchecked(STATUS_BATCH * batch, failing)
        invariant STATUS_BATCH * batch < |locals| || failed == Unchecked(|locals|, failing)
        invariant forall i | 0 <= i < |locals| ::
                    locals[i].status == if i < STATUS_BATCH * batch && i / STATUS_BATCH !in failing
                    then StatusOf(worker.table, locals[i].alias) else was[i].status
        decreases |locals| - STATUS_BATCH * batch
      {
        var from := STATUS_BATCH * batch;
        var to := if from + STATUS_BATCH < |locals| then from + STATUS_BATCH else |locals|;
        BatchSize(batch, to, failing);
        assert forall i: nat | from <= i < to :: i / STATUS_BATCH == batch;
        if batch in failing {
          failed := failed + (to - from);
        } else {
          UpdateStatuses(from, to);
        }
        batch := batch + 1;
      }
      NoneUnchecked(|locals|, failing);
      AllTold(worker.table, was, locals, failing);
    }

    /** update_edge_key_statuses for one batch. */
    method UpdateStatuses(from: nat, to: nat)
      requires Valid() && from <= to <= |locals|
      modifies this`locals
      ensures Valid() && SameAliases(old(locals), locals)
      ensures forall i | 0 <= i < |locals| ::
                locals[i].status == if from <= i < to then StatusOf(worker.table, locals[i].alias)
                else old(locals)[i].status
    {
      for i := from to to
        invariant Valid() && SameAliases(old(locals), locals)
        invariant forall k | 0 <= k < |locals| ::
            locals[k].status == if from <= k < i then StatusOf(worker.table, locals[k].alias) else old(locals)[k].status
      {
        locals := locals[i := locals[i].(status := StatusOf(worker.table, locals[i].alias))];
      }
    }

    /** One request: it does not arrive for an alias in `unsent`, and its reply is lost for one in
        `unheard`. */
    method PushOne(l: Local, unsent: set<string>, unheard: set<string>) returns (answered: bool, reached: bool)
      requires Valid() && l.key != Some("")
      modifies worker`table
      ensures Valid() && TokensKept(old(worker.table), worker.table)
      ensures worker.table == if l.alias in unsent then old(worker.table) else Pushed(old(worker.table), l)
      ensures reached <==> l.alias !in unsent && l.alias !in unheard
      ensures answered <==> reached && !Refused(old(worker.table), l)
      ensures answered ==> l.alias in worker.table && worker.table[l.alias].active
      ensures answered && l.key.Some? && (l.status.Present? ==> HasToken(old(worker.table), l.alias))
              ==> HasToken(worker.table, l.alias)
    {
      if l.alias in unsent {
        return false, false;
      }
      PushedIs(worker.table, l);
      ghost var was := worker.table;
      var reply, _, _ := worker.Upsert(l.alias, true, Sent(l));
      RefusedIs(was, l);
      reached := l.alias !in unheard;
      answered := reached && reply.Done?;
    }

    /** push_all_access_keys_to_edge: active aliases are pushed, the others skipped. */
    method PushAll(unsent: set<string>, unheard: set<string>) returns (succeeded: nat, failed: nat, skipped: nat)
      requires Valid()
      modifies worker`table
      ensures Valid() && TokensKept(old(worker.table), worker.table)
      ensures succeeded + failed == |Actives(locals)| && skipped == |locals| - |Actives(locals)|
      ensures worker.table
           == AllPushed(old(worker.table), Tried(Actives(locals), unsent + unheard), unsent)
      ensures failed == 0 && Fresh(locals, old(worker.table)) ==>
                forall i | 0 <= i < |locals| && locals[i].active && locals[i].key.Some? ::
                  HasToken(worker.table, locals[i].alias)
      ensures Different(locals) ==>
                (failed == 0 <==>
                 forall l | l in locals && l.active :: Answers(l, unsent + unheard, old(worker.table)))
    {
      ghost var was := worker.table;
      var payloads := Payloads();
      skipped := |locals| - |payloads|;
      succeeded, failed := PushEach(payloads, unsent, unheard);
      if Different(locals) {
        ActivesDifferent(locals);
      }
      ActivesAnswer(locals, unsent + unheard, was);
      if failed == 0 && Fresh(locals, was) {
        ActivesHold(locals, was, worker.table);
      }
    }

    method Payloads() returns (payloads: seq<Local>)
      ensures payloads == Actives(locals)
    {
      payloads := [];
      for i := 0 to |locals|
        invariant payloads == Actives(locals[..i])
      {
        assert locals[..i + 1][..i] == locals[..i];
        if locals[i].active {
          payloads := payloads + [locals[i]];
        }
      }
      assert locals[..|locals|] == locals;
    }

    /** The first push is a probe, the others follow in any order. */
    method PushEach(payloads: seq<Local>, unsent: set<string>, unheard: set<string>)
      returns (succeeded: nat, failed: nat)
      requires Valid() && forall l | l in payloads :: l.key != Some("")
      modifies worker`table
      ensures Valid() && TokensKept(old(worker.table), worker.table) && succeeded + failed == |payloads|
      ensures worker.table == AllPushed(old(worker.table), Tried(payloads, unsent + unheard), unsent)
      ensures failed == 0 ==> AllHold(payloads, |payloads|, old(worker.table), worker.table)
      ensures Different(payloads) ==>
                (failed == 0 <==> AllAnswer(payloads, |payloads|, unsent + unheard, old(worker.table)))
    {
      succeeded, failed := 0, 0;
      ghost var was := worker.table;
      SofarStart(payloads, was, unsent, unsent + unheard);
      for i := 0 to |payloads|
        invariant succeeded + failed == i && Valid()
        invariant i > 0 ==> Tried(payloads, unsent + unheard) == payloads
        invariant Sofar(payloads, i, was, worker.table, unsent, unsent + unheard, failed == 0)
      {
        ghost var before := worker.table;
        var answered, reached := PushOne(payloads[i], unsent, unheard);
        SofarNext(payloads, i, was, before, worker.table, unsent, unsent + unheard, failed == 0, answered);
        if i == 0 && !reached {
          ProbeFails(payloads, unsent + unheard, was);
          return 0, |payloads|;
        }
        succeeded, failed := if answered then succeeded + 1 else succeeded, if answered then failed else failed + 1;
      }
      assert payloads[..|payloads|] == payloads;
    }
  }
}
