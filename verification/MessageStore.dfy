/** The Worker's message tables: insert-or-ignore, ingest, cleanup and cascading delete
    (cloudflare-mailbox/src/messages/repository.ts, cloudflare-mailbox/src/messages/service.ts). */
module MessageStore {

  /** A message row; `alias` and `message` are the two lookup digests. */
  datatype Row = Row(id: string, alias: string, message: string,
                     receivedAt: int, expiresAt: int, createdAt: int, permanent: bool)

  datatype Outcome = Inserted(id: string) | Existing(id: string) | Failed

  datatype Counts = Counts(stored: nat, matched: nat, duplicate: nat)

  /** A parsed mail: digests of its recipients and of its identity. */
  datatype Mail = Mail(message: string, recipients: seq<string>, size: nat, forInbox: bool, permanent: bool) {
    /** Only so many recipients are looked up. */
    function Read(): seq<string> {
      if |recipients| > RECIPIENTS_READ then recipients[..RECIPIENTS_READ] else recipients
    }
  }

  /** An ingest that went through: the mail and the aliases its lookups found. */
  datatype Receipt = Receipt(mail: Mail, found: set<string>)

  const RECIPIENTS_READ := 24
  const FOREVER := 253_402_300_799

  predicate Has(rows: seq<Row>, alias: string, message: string) {
    exists r | r in rows :: r.alias == alias && r.message == message
  }

  /** The primary key, the unique index on (alias_digest, message_digest), the foreign key. */
  predicate Sound(rows: seq<Row>, aliases: map<string, bool>) {
    && (forall i, j | 0 <= i < j < |rows| :: rows[i].id != rows[j].id)
    && (forall i, j | 0 <= i < j < |rows| :: (rows[i].alias, rows[i].message) != (rows[j].alias, rows[j].message))
    && (forall i | 0 <= i < |rows| :: rows[i].alias in aliases)
  }

  /** Every alias that was found has the message. */
  ghost predicate Honoured(rows: seq<Row>, ledger: seq<Receipt>) {
    forall r, a | r in ledger && a in r.found :: Has(rows, a, r.mail.message)
  }

  lemma HonouredLater(rows: seq<Row>, later: seq<Row>, ledger: seq<Receipt>)
    requires Honoured(rows, ledger) && rows <= later
    ensures Honoured(later, ledger)
  {
    forall r, a | r in ledger && a in r.found ensures Has(later, a, r.mail.message) {
      HasLater(rows, later, a, r.mail.message);
    }
  }

  lemma HasLater(rows: seq<Row>, later: seq<Row>, alias: string, message: string)
    requires Has(rows, alias, message) && rows <= later
    ensures Has(later, alias, message)
  {
    var r :| r in rows && r.alias == alias && r.message == message;
    assert r in later;
  }

  /** Rows of one (alias, message) pair. */
  function Pair(rows: seq<Row>, alias: string, message: string): nat {
    if rows == [] then 0 else
    Pair(rows[..|rows| - 1], alias, message)
    + if rows[|rows| - 1].alias == alias && rows[|rows| - 1].message == message then 1 else 0
  }

  lemma SoundFront(rows: seq<Row>, aliases: map<string, bool>)
    requires Sound(rows, aliases) && rows != []
    ensures var init, last := rows[..|rows| - 1], rows[|rows| - 1];
            && rows == init + [last] && Sound(init, aliases)
            && forall r | r in init :: r.id != last.id && (r.alias, r.message) != (last.alias, last.message)
  {}

  lemma SoundAppend(rows: seq<Row>, last: Row, aliases: map<string, bool>)
    requires Sound(rows, aliases) && last.alias in aliases
    requires forall r | r in rows :: r.id != last.id && (r.alias, r.message) != (last.alias, last.message)
    ensures Sound(rows + [last], aliases)
  {}

  lemma HasFront(init: seq<Row>, last: Row, alias: string, message: string)
    ensures Has(init + [last], alias, message)
       <==> Has(init, alias, message) || (last.alias == alias && last.message == message)
  {
    if Has(init, alias, message) {
      HasLater(init, init + [last], alias, message);
    } else if last.alias == alias && last.message == message {
      assert last in init + [last];
    }
  }

  /** With a sound table, having a pair means having exactly one row of it. */
  lemma {:induction false} PairIsOne(rows: seq<Row>, aliases: map<string, bool>, alias: string, message: string)
    requires Sound(rows, aliases)
    ensures Pair(rows, alias, message) == if Has(rows, alias, message) then 1 else 0
  {
    if rows != [] {
      var init, last := rows[..|rows| - 1], rows[|rows| - 1];
      SoundFront(rows, aliases);
      PairIsOne(init, aliases, alias, message);
      HasFront(init, last, alias, message);
    }
  }

  /** The order of first occurrence without repetitions. */
  function Unique(s: seq<string>): (u: seq<string>)
    ensures |u| <= |s| && forall x :: x in u <==> x in s
    ensures forall i, j | 0 <= i < j < |u| :: u[i] != u[j]
  {
    if s == [] then [] else
    var init := Unique(s[..|s| - 1]);
    assert s == s[..|s| - 1] + [s[|s| - 1]];
    if s[|s| - 1] in init then init else init + [s[|s| - 1]]
  }

  function Kept(rows: seq<Row>, keep: Row -> bool): (k: seq<Row>)
    ensures forall r :: r in k <==> r in rows && keep(r)
    ensures |k| <= |rows|
  {
    if rows == [] then [] else
    assert rows == rows[..|rows| - 1] + [rows[|rows| - 1]];
    Kept(rows[..|rows| - 1], keep) + if keep(rows[|rows| - 1]) then [rows[|rows| - 1]] else []
  }

  lemma {:induction false} KeptSound(rows: seq<Row>, keep: Row -> bool, aliases: map<string, bool>,
                                     left: map<string, bool>)
    requires Sound(rows, aliases) && forall r | r in rows && keep(r) :: r.alias in left
    ensures Sound(Kept(rows, keep), left)
  {
    if rows != [] {
      var init, last := rows[..|rows| - 1], rows[|rows| - 1];
      SoundFront(rows, aliases);
      KeptSound(init, keep, aliases, left);
      if keep(last) {
        assert last in rows;
        SoundAppend(Kept(init, keep), last, left);
      }
    }
  }

  /** The first `done` aliases have the message. */
  ghost predicate Stored(rows: seq<Row>, aliases: seq<string>, message: string, done: nat) {
    done <= |aliases| && forall i | 0 <= i < done :: Has(rows, aliases[i], message)
  }

  lemma StoredLater(rows: seq<Row>, later: seq<Row>, aliases: seq<string>, message: string, done: nat)
    requires Stored(rows, aliases, message, done) && rows <= later
    ensures Stored(later, aliases, message, done)
  {
    forall i | 0 <= i < done ensures Has(later, aliases[i], message) {
      HasLater(rows, later, aliases[i], message);
    }
  }

  lemma StoredOnce(rows: seq<Row>, later: seq<Row>, aliases: seq<string>, i: nat, row: Row, outcome: Outcome)
    requires i < |aliases| && row.alias == aliases[i] && Stored(rows, aliases, row.message, i)
    requires later == if outcome.Inserted? then rows + [row] else rows
    requires outcome.Existing? ==> Has(rows, row.alias, row.message)
    ensures Stored(later, aliases, row.message, if outcome.Failed? then i else i + 1)
  {
    StoredLater(rows, later, aliases, row.message, i);
    if outcome.Inserted? {
      assert later[|rows|] == row;
    }
  }

  /** All rows added since `was` are like the pattern but for identifier and alias. */
  ghost predicate Added(was: seq<Row>, now: seq<Row>, aliases: seq<string>, pattern: Row) {
    was <= now && forall i | |was| <= i < |now| :: Like(now[i], pattern) && now[i].alias in aliases
  }

  /** After an ingest that went through alone, the aliases that have the mail are those that had it
      and those it found. */
  ghost predicate TakenIn(was: seq<Row>, now: seq<Row>, mail: Mail, known: seq<string>) {
    forall a :: Has(now, a, mail.message) <==> Has(was, a, mail.message) || a in known
  }

  lemma AddedAre(was: seq<Row>, now: seq<Row>, mail: Mail, known: seq<string>, pattern: Row)
    requires Added(was, now, known, pattern) && pattern.message == mail.message
    requires forall a | a in known :: Has(now, a, mail.message)
    ensures TakenIn(was, now, mail, known)
  {
    forall a ensures Has(now, a, mail.message) <==> Has(was, a, mail.message) || a in known {
      if Has(was, a, mail.message) {
        HasLater(was, now, a, mail.message);
      } else if Has(now, a, mail.message) {
        var r :| r in now && r.alias == a && r.message == mail.message;
        assert now == was + now[|was|..] && r in now[|was|..];
      }
    }
  }

  predicate Like(r: Row, pattern: Row) { r == pattern.(id := r.id, alias := r.alias) }

  /** The drawn identifiers are new and different. */
  predicate Drawn(ids: seq<string>, from: nat, to: nat, rows: seq<Row>) {
    && to <= |ids|
    && (forall i, j | from <= i < j < to :: ids[i] != ids[j])
    && (forall i, r | from <= i < to && r in rows :: r.id != ids[i])
  }

  function Longest(rows: seq<Row>): (n: nat)
    ensures forall r | r in rows :: |r.id| <= n
  {
    if rows == [] then 0 else
    var init, last := rows[..|rows| - 1], rows[|rows| - 1];
    assert rows == init + [last];
    if |last.id| > Longest(init) then |last.id| else Longest(init)
  }

  /** Some identifiers that no row has. */
  function NewIds(rows: seq<Row>, n: nat): (ids: seq<string>)
    ensures |ids| == n
  {
    seq(n, i requires 0 <= i < n => seq(Longest(rows) + 1 + i, _ => 'x'))
  }

  lemma NewIdsAreDrawn(rows: seq<Row>, n: nat)
    ensures forall to: nat | to <= n :: Drawn(NewIds(rows, n), 0, to, rows)
  {
    var ids := NewIds(rows, n);
    assert forall i | 0 <= i < n :: |ids[i]| == Longest(rows) + 1 + i;
  }

  predicate IsAmong(x: string, s: seq<string>, n: nat) { exists k :: 0 <= k < |s| && k < n && s[k] == x }

  /** Aliases that are as they were. */
  predicate Steady(steady: set<string>, was: map<string, bool>, now: map<string, bool>) {
    forall a | a in steady && a in was :: a in now && now[a] == was[a]
  }

  /** No row added since `was` has one of the identifiers. */
  predicate NoneDrawn(drawn: set<string>, was: seq<Row>, now: seq<Row>) {
    forall i | |was| <= i < |now| :: now[i].id !in drawn
  }

  lemma DrawnLater(ids: seq<string>, from: nat, to: nat, rows: seq<Row>, later: seq<Row>)
    requires Drawn(ids, from, to, rows) && rows <= later && NoneDrawn((set x | x in ids), rows, later)
    ensures Drawn(ids, from, to, later)
  {
    forall i, r | from <= i < to && r in later ensures r.id != ids[i] {
      var k :| 0 <= k < |later| && later[k] == r;
      if k < |rows| {
        assert rows[k] == r;
      }
    }
  }

  lemma DrawnNext(ids: seq<string>, i: nat, to: nat, rows: seq<Row>, later: seq<Row>)
    requires Drawn(ids, i, to, rows) && i < to
    requires later == rows || (|later| == |rows| + 1 && rows <= later && later[|rows|].id == ids[i])
    ensures Drawn(ids, i + 1, to, later)
  {
    forall j, r | i + 1 <= j < to && r in later ensures r.id != ids[j] {
      if r !in rows {
        assert r == later[|rows|];
      }
    }
  }

  /** The clock and the identifiers the Worker draws are inputs. */
  class MessageWorker {
    var rows: seq<Row>
    /** Every known alias and whether it is active. */
    var aliases: map<string, bool>
    const maxEmailBytes: nat
    const retention: nat
    /** Whether other requests run between the inserts of this one. */
    const shared: bool
    /** Every ingest that went through since rows were last deleted, oldest first. */
    ghost var ledger: seq<Receipt>

    ghost predicate Valid()
      reads this
    {
      Sound(rows, aliases)
    }

    constructor (maxEmailBytes: nat, retention: nat, shared: bool)
      ensures Valid() && rows == [] && aliases == map[] && ledger == [] && this.shared == shared
    {
      this.maxEmailBytes, this.retention, this.shared := maxEmailBytes, retention, shared;
      rows, aliases, ledger := [], map[], [];
    }

    /** Any number of other ingests and alias changes; cleanup and deletion are not among them.  The
        aliases in `steady` stay as they are, and nobody else draws an identifier in `drawn`. */
    method Meanwhile(steady: set<string>, drawn: set<string>)
      requires Valid() && Honoured(rows, ledger)
      modifies this`rows, this`aliases, this`ledger
      ensures Valid() && Honoured(rows, ledger) && old(rows) <= rows && old(ledger) <= ledger
      ensures old(aliases).Keys <= aliases.Keys && Steady(steady, old(aliases), aliases)
      ensures NoneDrawn(drawn, old(rows), rows)
      ensures !shared ==> rows == old(rows) && aliases == old(aliases) && ledger == old(ledger)
    {
      var more: seq<Row>, next: map<string, bool> := *, *;
      if && shared && aliases.Keys <= next.Keys && Sound(rows + more, next)
         && Steady(steady, aliases, next) && NoneDrawn(drawn, rows, rows + more) {
        HonouredLater(rows, rows + more, ledger);
        rows, aliases := rows + more, next;
      }
      ghost var others: seq<Receipt> := *;
      if shared && Honoured(rows, ledger + others) {
        ledger := ledger + others;
      }
    }

    /** MessageRepository.insert: INSERT OR IGNORE, then the row that is there. */
    method Insert(row: Row) returns (outcome: Outcome)
      requires Valid()
      modifies this`rows
      ensures Valid()
      ensures outcome == Inserted(row.id) ==> rows == old(rows) + [row] && !Has(old(rows), row.alias, row.message)
      ensures !outcome.Inserted? ==> rows == old(rows)
      ensures outcome.Existing? ==>
                exists r | r in rows :: r.alias == row.alias && r.message == row.message && r.id == outcome.id
      ensures outcome.Inserted? ==> outcome.id == row.id
      ensures outcome.Failed? <==>
              !Has(old(rows), row.alias, row.message)
              && (row.alias !in aliases || exists r | r in old(rows) :: r.id == row.id)
    {
      var clash := exists r | r in rows :: r.id == row.id;
      if !clash && !Has(rows, row.alias, row.message) {
        if row.alias !in aliases {
          return Failed;
        }
        rows := rows + [row];
        return Inserted(row.id);
      }
      if Has(rows, row.alias, row.message) {
        var r :| r in rows && r.alias == row.alias && r.message == row.message;
        return Existing(r.id);
      }
      return Failed;
    }

    /** The lookup loop of MessageService.ingest; a lookup that throws is skipped. */
    method Match(mail: Mail, failing: set<string>) returns (unique: seq<string>)
      ensures unique == Unique(Known(mail, failing))
    {
      var recipients := mail.Read();
      var known: seq<string> := [];
      for i := 0 to |recipients|
        invariant known == Active(recipients[..i], failing)
      {
        ActiveNext(recipients, i, failing);
        if recipients[i] !in failing && recipients[i] in aliases && aliases[recipients[i]] {
          known := known + [recipients[i]];
        }
      }
      assert recipients[..|recipients|] == recipients;
      unique := Unique(known);
    }

    function Active(recipients: seq<string>, failing: set<string>): (known: seq<string>)
      reads this`aliases
      ensures |known| <= |recipients|
      ensures forall a :: a in known <==> a in recipients && a !in failing && a in aliases && aliases[a]
    {
      if recipients == [] then [] else
      var last := recipients[|recipients| - 1];
      assert recipients == recipients[..|recipients| - 1] + [last];
      Active(recipients[..|recipients| - 1], failing)
      + if last !in failing && last in aliases && aliases[last] then [last] else []
    }

    lemma ActiveNext(recipients: seq<string>, i: nat, failing: set<string>)
      requires i < |recipients|
      ensures var a := recipients[i];
              Active(recipients[..i + 1], failing) == Active(recipients[..i], failing)
              + if a !in failing && a in aliases && aliases[a] then [a] else []
    {
      var read := recipients[..i + 1];
      assert |read| - 1 == i && read[i] == recipients[i] && read[..i] == recipients[..i];
    }

    function Known(mail: Mail, failing: set<string>): seq<string>
      reads this`aliases
    {
      Active(mail.Read(), failing)
    }

    /** What the rows of a mail have in common. */
    function Pattern(mail: Mail, now: int): Row {
      Row("", "", mail.message, now, if mail.permanent then FOREVER else now + retention, now, mail.permanent)
    }

    predicate Accepts(mail: Mail) { mail.size <= maxEmailBytes && mail.forInbox }

    /** MessageService.ingest.  `ids` are the identifiers drawn for the rows; the request can die
        after any number of inserts, then there is no answer.  Only an ingest that went through
        gets a receipt, for exactly the aliases it found.  The aliases in `steady` are not changed
        by others meanwhile. */
    method Ingest(mail: Mail, now: int, ids: seq<string>, failing: set<string>, dies: nat, steady: set<string>)
      returns (answer: bool, counts: Counts)
      requires Valid() && Honoured(rows, ledger)
      modifies this`rows, this`aliases, this`ledger
      ensures Valid() && Honoured(rows, ledger) && old(rows) <= rows && old(ledger) <= ledger
      ensures old(aliases).Keys <= aliases.Keys && Steady(steady, old(aliases), aliases)
      ensures answer ==> counts.stored + counts.duplicate == counts.matched
      ensures answer ==> counts.matched == if Accepts(mail) then |Unique(old(Known(mail, failing)))| else 0
      // every one of the first 24 recipients that is active and whose lookup works has the mail once
      ensures answer && mail.size <= maxEmailBytes && mail.forInbox ==>
                forall k | 0 <= k < |mail.recipients| && k < 24 && mail.recipients[k] !in failing
                           && mail.recipients[k] in old(aliases) && old(aliases)[mail.recipients[k]] ::
                  Pair(rows, mail.recipients[k], mail.message) == 1
      ensures answer && Accepts(mail) ==> forall a | a in old(Known(mail, failing)) :: Pair(rows, a, mail.message) == 1
      ensures answer && Accepts(mail) ==>
                |ledger| > |old(ledger)| && ledger[|ledger| - 1] == Receipt(mail, old(Found(mail, failing)))
      ensures dies >= |ids| && Drawn(ids, 0, |Unique(old(Known(mail, failing)))|, old(rows)) ==> answer
      ensures !shared ==> aliases == old(aliases) && Added(old(rows), rows, Known(mail, failing), Pattern(mail, now))
      ensures !shared && !(mail.size <= maxEmailBytes && mail.forInbox) ==> answer && rows == old(rows)
      ensures !shared ==> forall i | |old(rows)| <= i < |rows| :: IsRowOf(rows[i], mail, now)
      // and nobody else gets it
      ensures !shared ==> forall i | |old(rows)| <= i < |rows| ::
                  IsAmong(rows[i].alias, mail.recipients, 24) && IsActive(rows[i].alias) && rows[i].alias !in failing
      ensures !shared && answer ==> |rows| == |old(rows)| + counts.stored
      ensures !shared && !(answer && Accepts(mail)) ==> ledger == old(ledger)
      ensures !shared && answer && Accepts(mail) ==> |ledger| == |old(ledger)| + 1
      ensures !shared && answer && Accepts(mail) ==> TakenIn(old(rows), rows, mail, Known(mail, failing))
    {
      if !Accepts(mail) {
        return true, Counts(0, 0, 0);
      }
      var unique := Match(mail, failing);
      var stored, duplicate := StoreFor(mail, unique, now, ids, dies, steady);
      if !shared {
        AddedMeans(old(rows), mail, failing, now);
      }
      if stored + duplicate < |unique| {
        return false, Counts(0, 0, 0);
      }
      GiveReceipt(mail, unique);
      if !shared {
        AddedAre(old(rows), rows, mail, Known(mail, failing), Pattern(mail, now));
      }
      return true, Counts(stored, |unique|, duplicate);
    }

    ghost function Found(mail: Mail, failing: set<string>): set<string>
      reads this`aliases
    {
      set a | a in Known(mail, failing)
    }

    /** The insert loop of MessageService.ingest, as far as it gets. */
    method StoreFor(mail: Mail, unique: seq<string>, now: int, ids: seq<string>, dies: nat, steady: set<string>)
      returns (stored: nat, duplicate: nat)
      requires Valid() && Honoured(rows, ledger) && forall a | a in unique :: a in aliases
      modifies this`rows, this`aliases, this`ledger
      ensures Valid() && Honoured(rows, ledger) && old(rows) <= rows && old(ledger) <= ledger
      ensures old(aliases).Keys <= aliases.Keys && Steady(steady, old(aliases), aliases)
      ensures Stored(rows, unique, mail.message, stored + duplicate)
      ensures dies >= |ids| && Drawn(ids, 0, |unique|, old(rows)) ==> stored + duplicate == |unique|
      ensures !shared ==> aliases == old(aliases) && ledger == old(ledger)
      ensures !shared ==> Added(old(rows), rows, unique, Pattern(mail, now))
      ensures !shared && stored + duplicate == |unique| ==> |rows| == |old(rows)| + stored
    {
      stored, duplicate := 0, 0;
      while stored + duplicate < |unique|
        invariant Valid() && Honoured(rows, ledger) && old(rows) <= rows && old(ledger) <= ledger
        invariant old(aliases).Keys <= aliases.Keys && Steady(steady, old(aliases), aliases)
        invariant Stored(rows, unique, mail.message, stored + duplicate) && forall a | a in unique :: a in aliases
        invariant !shared ==> aliases == old(aliases) && ledger == old(ledger)
        invariant !shared ==> Added(old(rows), rows, unique, Pattern(mail, now)) && |rows| == |old(rows)| + stored
        invariant Drawn(ids, 0, |unique|, old(rows)) ==> Drawn(ids, stored + duplicate, |unique|, rows)
      {
        var i := stored + duplicate;
        if |ids| <= i {
          return;
        }
        var outcome := StoreOne(Pattern(mail, now), unique, i, ids, steady);
        if outcome.Failed? || i == dies {
          return;
        }
        if outcome.Inserted? {
          stored := stored + 1;
        } else {
          duplicate := duplicate + 1;
        }
      }
    }

    /** The insert for one alias, after whatever else happened. */
    method StoreOne(pattern: Row, unique: seq<string>, i: nat, ids: seq<string>, steady: set<string>)
      returns (outcome: Outcome)
      requires Valid() && Honoured(rows, ledger) && Stored(rows, unique, pattern.message, i)
      requires i < |unique| && i < |ids|
      modifies this`rows, this`aliases, this`ledger
      ensures Valid() && Honoured(rows, ledger) && old(rows) <= rows && old(ledger) <= ledger
      ensures old(aliases).Keys <= aliases.Keys && Steady(steady, old(aliases), aliases)
      ensures Stored(rows, unique, pattern.message, if outcome.Failed? then i else i + 1)
      ensures unique[i] in old(aliases) && Drawn(ids, i, |unique|, old(rows)) ==>
                !outcome.Failed? && Drawn(ids, i + 1, |unique|, rows)
      ensures !shared ==> aliases == old(aliases) && ledger == old(ledger)
      ensures !shared ==>
                rows == old(rows) + if outcome.Inserted? then [pattern.(id := ids[i], alias := unique[i])] else []
    {
      Meanwhile(steady, set x | x in ids);
      StoredLater(old(rows), rows, unique, pattern.message, i);
      var row := pattern.(id := ids[i], alias := unique[i]);
      ghost var was := rows;
      outcome := Insert(row);
      StoredOnce(was, rows, unique, i, row, outcome);
      HonouredLater(was, rows, ledger);
      if Drawn(ids, i, |unique|, old(rows)) {
        DrawnLater(ids, i, |unique|, old(rows), was);
        DrawnNext(ids, i, |unique|, was, rows);
      }
    }

    /** An alias that did not have the mail has it after an acknowledged ingest exactly if its
        lookup did not throw: the source skips such a recipient and acknowledges all the same. */
    lemma MissedByLookup(was: seq<Row>, now: seq<Row>, mail: Mail, k: nat, failing: set<string>)
      requires TakenIn(was, now, mail, Known(mail, failing)) && k < |mail.recipients| && k < 24
      requires mail.recipients[k] in aliases && aliases[mail.recipients[k]]
      requires !Has(was, mail.recipients[k], mail.message)
      ensures Has(now, mail.recipients[k], mail.message) <==> mail.recipients[k] !in failing
    {
      var alias := mail.recipients[k];
      assert Has(now, alias, mail.message) <==> alias in Known(mail, failing);
    }

    predicate IsActive(alias: string)
      reads this`aliases
    {
      alias in aliases && aliases[alias]
    }

    /** A row of the mail that came in at `now`; temporary ones expire after the retention time. */
    predicate IsRowOf(r: Row, mail: Mail, now: int) {
      && r.message == mail.message && r.receivedAt == r.createdAt == now && r.permanent == mail.permanent
      && r.expiresAt == if mail.permanent then 253_402_300_799 else now + retention
    }

    lemma AddedMeans(was: seq<Row>, mail: Mail, failing: set<string>, now: int)
      requires Added(was, rows, Known(mail, failing), Pattern(mail, now))
      ensures forall i | |was| <= i < |rows| :: IsRowOf(rows[i], mail, now)
      ensures forall i | |was| <= i < |rows| ::
                IsAmong(rows[i].alias, mail.recipients, 24) && IsActive(rows[i].alias) && rows[i].alias !in failing
    {
      forall i | |was| <= i < |rows| ensures IsAmong(rows[i].alias, mail.recipients, 24) {
        var k :| 0 <= k < |mail.Read()| && mail.Read()[k] == rows[i].alias;
        assert mail.recipients[k] == rows[i].alias;
      }
    }

    ghost method GiveReceipt(mail: Mail, unique: seq<string>)
      requires Valid() && Honoured(rows, ledger) && Stored(rows, unique, mail.message, |unique|)
      modifies this`ledger
      ensures Honoured(rows, ledger) && ledger == old(ledger) + [Receipt(mail, set a | a in unique)]
      ensures forall a | a in unique :: Pair(rows, a, mail.message) == 1
    {
      AllPaired(unique, mail.message);
      HonouredOnceMore(unique, Receipt(mail, set a | a in unique));
      ledger := ledger + [Receipt(mail, set a | a in unique)];
    }

    lemma AllPaired(unique: seq<string>, message: string)
      requires Valid() && Stored(rows, unique, message, |unique|)
      ensures forall a | a in unique :: Pair(rows, a, message) == 1
    {
      forall a | a in unique ensures Pair(rows, a, message) == 1 {
        PairIsOne(rows, aliases, a, message);
      }
    }

    lemma HonouredOnceMore(unique: seq<string>, receipt: Receipt)
      requires Honoured(rows, ledger) && Stored(rows, unique, receipt.mail.message, |unique|)
      requires receipt.found == set a | a in unique
      ensures Honoured(rows, ledger + [receipt])
    {}

    /** The part of AliasRepository.upsert that this table needs. */
    method PutAlias(alias: string, active: bool)
      requires Valid()
      modifies this`aliases
      ensures Valid() && aliases == old(aliases)[alias := active]
    {
      aliases := aliases[alias := active];
    }

    /** MessageRepository.cleanup */
    method Cleanup(now: int) returns (removed: nat)
      requires Valid()
      modifies this`rows, this`ledger
      ensures Honoured(rows, ledger)
      ensures Valid() && removed == |old(rows)| - |rows|
      ensures forall r :: r in rows <==> r in old(rows) && (r.permanent || r.expiresAt > now)
    {
      var keep := (r: Row) => r.permanent || r.expiresAt > now;
      KeptSound(rows, keep, aliases, aliases);
      removed := |rows| - |Kept(rows, keep)|;
      rows, ledger := Kept(rows, keep), [];
    }

    /** AliasRepository.deleteByDigest: the alias and its messages go in one batch. */
    method DeleteAlias(alias: string)
      requires Valid()
      modifies this
      ensures Valid() && Honoured(rows, ledger) && aliases == old(aliases) - {alias}
      ensures forall r :: r in rows <==> r in old(rows) && r.alias != alias
    {
      var keep := (r: Row) => r.alias != alias;
      KeptSound(rows, keep, aliases, aliases - {alias});
      rows, aliases, ledger := Kept(rows, keep), aliases - {alias}, [];
    }
  }
}
