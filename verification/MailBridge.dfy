/** icloud_gateway/imap_bridge.py: mail of IMAP folders uploaded to the Worker at least once,
    with a cursor per folder that survives crashes. */
module MailBridge {
  import opened Ordering
  import opened MessageStore

  const CYCLE_LIMIT := 20
  const MAX_MESSAGE_BYTES := 8_000_000

  type Cursors = map<string, nat>

  function At(cursors: Cursors, folder: string): nat { if folder in cursors then cursors[folder] else 0 }

  /** What the IMAP server holds in one folder: a UID names one mail for ever, and UIDs are given
      out in ascending order (constant UID validity). */
  datatype Folder = Folder(uids: set<nat>, next: nat)

  type Mailbox = map<string, Folder>

  predicate Assigned(server: Mailbox) {
    forall f | f in server :: forall u | u in server[f].uids :: 0 < u < server[f].next
  }

  /** From one mailbox to a later one: mail arrives above and may be deleted. */
  predicate Later(was: Mailbox, now: Mailbox) {
    && (forall f | f in was :: f in now && was[f].next <= now[f].next)
    && (forall f, u | f in now && u in now[f].uids && f in was :: u in was[f].uids || was[f].next <= u)
  }

  predicate NumberLe(a: nat, b: nat) { b <= a }

  ghost predicate Rising(uids: seq<nat>) { forall i, j | 0 <= i < j < |uids| :: uids[i] < uids[j] }

  predicate Distinct(uids: seq<nat>) { forall i, j | 0 <= i < j < |uids| :: uids[i] != uids[j] }

  /** The selected UIDs in ascending order. */
  function Ascend(uids: seq<nat>): seq<nat> { Sort(NumberLe, uids) }

  lemma AscendSorted(uids: seq<nat>)
    requires Distinct(uids)
    ensures Rising(Ascend(uids))
    ensures forall u :: u in Ascend(uids) <==> u in uids
  {
    SortSorted(NumberLe, uids);
    SameMultiset(uids, Ascend(uids));
    forall u ensures u in Ascend(uids) <==> u in uids {
      assert u in multiset(Ascend(uids)) <==> u in multiset(uids);
    }
  }

  lemma {:induction false} CountOne(uids: seq<nat>)
    requires Distinct(uids)
    ensures forall u :: multiset(uids)[u] <= 1
  {
    if uids != [] {
      var init, last := uids[..|uids| - 1], uids[|uids| - 1];
      CountOne(init);
      assert uids == init + [last];
      forall u ensures multiset(uids)[u] <= 1 {
        assert multiset(uids)[u] == multiset(init)[u] + if u == last then 1 else 0;
        assert last !in multiset(init) by {
          assert last !in init;
        }
      }
    }
  }

  lemma CountTwo(uids: seq<nat>, i: nat, j: nat)
    requires i < j < |uids| && uids[i] == uids[j]
    ensures multiset(uids)[uids[i]] >= 2
  {
    assert uids == uids[..j] + uids[j..] && uids[..j][i] in uids[..j] && uids[j..][0] in uids[j..];
  }

  lemma SameMultiset(a: seq<nat>, b: seq<nat>)
    requires Distinct(a) && multiset(a) == multiset(b)
    ensures Distinct(b)
  {
    CountOne(a);
    forall i, j | 0 <= i < j < |b| ensures b[i] != b[j] {
      if b[i] == b[j] {
        CountTwo(b, i, j);
      }
    }
  }

  function Above(uids: seq<nat>, cursor: nat): (r: seq<nat>)
    ensures forall u :: u in r <==> u in uids && u > cursor
  {
    if uids == [] then [] else
    assert uids == uids[..|uids| - 1] + [uids[|uids| - 1]];
    Above(uids[..|uids| - 1], cursor) + if uids[|uids| - 1] > cursor then [uids[|uids| - 1]] else []
  }

  lemma {:induction false} AboveSorted(uids: seq<nat>, cursor: nat)
    requires Rising(uids)
    ensures Rising(Above(uids, cursor))
  {
    if uids != [] {
      var init, last := uids[..|uids| - 1], uids[|uids| - 1];
      AboveSorted(init, cursor);
      forall i | 0 <= i < |Above(init, cursor)| ensures Above(init, cursor)[i] < last {
        assert Above(init, cursor)[i] in init;
      }
    }
  }

  function Recent(folder: string, uids: set<nat>, recent: set<(string, nat)>): set<nat> {
    set u | u in uids && (folder, u) in recent
  }

  lemma SuffixIsNewest(uids: seq<nat>, k: nat)
    requires Rising(uids) && k <= |uids|
    ensures forall u | u in uids && u !in uids[k..] :: forall v | v in uids[k..] :: u < v
  {
    forall u, v | u in uids && u !in uids[k..] && v in uids[k..] ensures u < v {
      assert uids == uids[..k] + uids[k..];
      var i, j :| 0 <= i < k && uids[..k][i] == u && 0 <= j < |uids| - k && uids[k..][j] == v;
      assert uids[i] < uids[k + j];
    }
  }

  lemma SuffixRises(uids: seq<nat>, k: nat)
    requires Rising(uids) && k <= |uids|
    ensures Rising(uids[k..]) && forall u | u in uids[k..] :: u in uids
  {}

  /** Some of the UIDs above the cursor in ascending order; all of them if there is a cursor. */
  ghost predicate Selected(uids: seq<nat>, all: set<nat>, cursor: nat) {
    && Rising(uids) && (forall u | u in uids :: u in all && u > cursor)
    && (cursor > 0 ==> forall u | u in all && u > cursor :: u in uids)
  }

  /** The first cycle takes the newest twenty of the mail found, or all if there are fewer. */
  ghost predicate Newest(uids: seq<nat>, found: set<nat>) {
    && |uids| <= 20 && (forall u | u in uids :: u in found)
    && (forall u | u in found && u > 0 && u !in uids :: |uids| == 20 && forall v | v in uids :: u < v)
  }

  type Key = (string, nat)

  /** For every folder with a positive cursor: since its first positive cursor nothing that is on
      the server was passed over. */
  ghost predicate Sure(cursors: Cursors, base: Cursors, server: Mailbox, handled: set<Key>) {
    forall f | At(cursors, f) > 0 :: SureIn(f, At(cursors, f), base, server, handled)
  }

  ghost predicate SureIn(f: string, cursor: nat, base: Cursors, server: Mailbox, handled: set<Key>) {
    && f in base && 0 < base[f] <= cursor
    && f in server && cursor < server[f].next
    && forall u | u in server[f].uids && base[f] < u <= cursor :: (f, u) in handled
  }

  /** The mail as the control route passes it on. */
  function Sent(mail: Mail): Mail { mail.(forInbox := true) }

  /** The Worker took the mail in. */
  ghost predicate Uploaded(ledger: seq<Receipt>, mail: Mail) { exists r | r in ledger :: r.mail == Sent(mail) }

  /** Every alias in `served` among the first 24 recipients has the mail. */
  ghost predicate Delivered(rows: seq<Row>, mail: Mail, served: set<string>) {
    forall k | 0 <= k < |mail.recipients| && k < 24 && mail.recipients[k] in served ::
      Has(rows, mail.recipients[k], mail.message)
  }

  /** And has it once. */
  ghost predicate DeliveredOnce(rows: seq<Row>, mail: Mail, served: set<string>) {
    forall k | 0 <= k < |mail.recipients| && k < 24 && mail.recipients[k] in served ::
      Pair(rows, mail.recipients[k], mail.message) == 1
  }

  /** A mail that is done with: too large, or taken in by the Worker for all those aliases. */
  ghost predicate Done(mail: Mail, ledger: seq<Receipt>, rows: seq<Row>, served: set<string>) {
    mail.size > MAX_MESSAGE_BYTES || (Uploaded(ledger, mail) && Delivered(rows, mail, served))
  }

  /** Nothing is handled but what is done with. */
  ghost predicate Settled(handled: set<Key>, ledger: seq<Receipt>, rows: seq<Row>, mailAt: Key -> Mail,
                          served: set<string>) {
    forall k | k in handled :: Done(mailAt(k), ledger, rows, served)
  }

  lemma SureLater(cursors: Cursors, base: Cursors, server: Mailbox, server': Mailbox, handled: set<Key>,
                  handled': set<Key>)
    requires Sure(cursors, base, server, handled) && Later(server, server') && handled <= handled'
    ensures Sure(cursors, base, server', handled')
  {
    forall f | At(cursors, f) > 0 ensures SureIn(f, At(cursors, f), base, server', handled') {
      assert SureIn(f, At(cursors, f), base, server, handled);
    }
  }

  lemma DoneLater(mail: Mail, ledger: seq<Receipt>, ledger': seq<Receipt>, rows: seq<Row>, rows': seq<Row>,
                  served: set<string>)
    requires Done(mail, ledger, rows, served) && ledger <= ledger' && rows <= rows'
    ensures Done(mail, ledger', rows', served)
  {
    if mail.size <= MAX_MESSAGE_BYTES {
      var r :| r in ledger && r.mail == Sent(mail);
      assert r in ledger';
      forall k | 0 <= k < |mail.recipients| && k < 24 && mail.recipients[k] in served
        ensures Has(rows', mail.recipients[k], mail.message)
      {
        HasLater(rows, rows', mail.recipients[k], mail.message);
      }
    }
  }

  lemma SettledLater(handled: set<Key>, ledger: seq<Receipt>, ledger': seq<Receipt>, rows: seq<Row>,
                     rows': seq<Row>, mailAt: Key -> Mail, served: set<string>)
    requires Settled(handled, ledger, rows, mailAt, served) && ledger <= ledger' && rows <= rows'
    ensures Settled(handled, ledger', rows', mailAt, served)
  {
    forall k | k in handled ensures Done(mailAt(k), ledger', rows', served) {
      DoneLater(mailAt(k), ledger, ledger', rows, rows', served);
    }
  }

  /** No cursor is lower. */
  ghost predicate Ahead(was: Cursors, now: Cursors) { forall f | f in was :: f in now && was[f] <= now[f] }

  lemma MovedAhead(cursors: Cursors, folder: string, highest: nat)
    requires At(cursors, folder) <= highest
    ensures Ahead(cursors, cursors[folder := highest])
  {}

  lemma AheadTwice(first: Cursors, second: Cursors, third: Cursors)
    requires Ahead(first, second) && Ahead(second, third)
    ensures Ahead(first, third)
  {
    forall f ensures At(first, f) <= At(third, f) {
      assert At(first, f) <= At(second, f);
    }
  }

  /** Folders that had a cursor keep the place it started from. */
  ghost predicate BaseKept(cursors: Cursors, was: Cursors, now: Cursors) {
    forall f | At(cursors, f) > 0 && f in was :: f in now && now[f] == was[f]
  }

  /** The first `done` of the ascending UIDs are handled. */
  ghost predicate Through(folder: string, uids: seq<nat>, done: nat, handled: set<Key>) {
    done <= |uids| && forall i | 0 <= i < done :: (folder, uids[i]) in handled
  }

  /** A cursor moved over handled UIDs only. */
  lemma SureMoved(folder: string, cursor: nat, base: Cursors, was: Mailbox, now: Mailbox, handled: set<Key>,
                  uids: seq<nat>, done: nat)
    requires 0 < done <= |uids| && Through(folder, uids, done, handled) && Assigned(was) && Later(was, now)
    requires folder in was && Selected(uids, was[folder].uids, cursor)
    requires cursor > 0 ==> SureIn(folder, cursor, base, now, handled)
    ensures uids[done - 1] > cursor
    ensures SureIn(folder, uids[done - 1], if cursor > 0 then base else base[folder := uids[done - 1]], now, handled)
  {
    var highest := uids[done - 1];
    assert highest in uids;
    if cursor > 0 {
      forall u | u in now[folder].uids && base[folder] < u <= highest ensures (folder, u) in handled {
        if u > cursor {
          assert u in uids;
          var i :| 0 <= i < |uids| && uids[i] == u;
          assert i < done;
        }
      }
    }
  }

  lemma SureAfter(cursors: Cursors, folder: string, cursor: nat, base: Cursors, server: Mailbox, handled: set<Key>)
    requires Sure(cursors, base, server, handled) && cursor > 0
    requires SureIn(folder, cursor, if At(cursors, folder) > 0 then base else base[folder := cursor], server, handled)
    ensures var base' := if At(cursors, folder) > 0 then base else base[folder := cursor];
            Sure(cursors[folder := cursor], base', server, handled)
  {
    var base' := if At(cursors, folder) > 0 then base else base[folder := cursor];
    var moved := cursors[folder := cursor];
    forall f | At(moved, f) > 0 ensures SureIn(f, At(moved, f), base', server, handled) {
      if f != folder {
        assert SureIn(f, At(cursors, f), base, server, handled);
      }
    }
  }

  lemma {:induction false} RisingCount(uids: seq<nat>, done: nat)
    requires Rising(uids) && done <= |uids|
    ensures |set i | 0 <= i < done :: uids[i]| == done
  {
    if done > 0 {
      RisingCount(uids, done - 1);
      assert (set i | 0 <= i < done :: uids[i]) == (set i | 0 <= i < done - 1 :: uids[i]) + {uids[done - 1]};
    }
  }

  /** The UIDs between two cursors that are handled. */
  ghost function Between(folder: string, from: nat, to: nat, handled: set<Key>): set<nat> {
    set u | from < u <= to && (folder, u) in handled
  }

  lemma MoreBetween(folder: string, from: nat, start: nat, to: nat, handled: set<Key>, more: set<Key>)
    requires from <= start && handled <= more
    ensures |Between(folder, start, to, handled)| <= |Between(folder, from, to, more)|
  {
    SmallerSet(Between(folder, start, to, handled), Between(folder, from, to, more));
  }

  lemma LaterTwice(first: Mailbox, second: Mailbox, third: Mailbox)
    requires Later(first, second) && Later(second, third)
    ensures Later(first, third)
  {}

  /** What was there first and is there last was there in between. */
  lemma StillThere(first: Mailbox, second: Mailbox, third: Mailbox, f: string)
    requires Assigned(first) && Later(first, second) && Later(second, third) && f in first
    ensures f in second && f in third && first[f].uids * third[f].uids <= second[f].uids
  {}

  /** What became of one UID. */
  datatype Step = Stop | TooLarge | Accepted

  /** Which mails cannot be fetched or are not accepted (`lost`), which folders cannot be searched
      (`down`), which mail SINCE finds (`recent`) and when a cycle dies are inputs. */
  class Bridge {
    const worker: MessageWorker
    /** The content behind a UID. */
    const mailAt: Key -> Mail
    /** Aliases that are active throughout. */
    const steady: set<string>
    /** Aliases whose lookup may throw. */
    const broken: set<string>
    /** imap-bridge-cursors.json */
    var saved: Cursors
    var server: Mailbox
    /** The UIDs the bridge has done with. */
    ghost var handled: set<Key>
    /** Where the first positive cursor of a folder stood. */
    ghost var base: Cursors

    ghost predicate Valid(cursors: Cursors)
      reads this, worker
    {
      && worker.Valid() && Honoured(worker.rows, worker.ledger) && Assigned(server)
      && AllActive(worker.aliases) && Sure(cursors, base, server, handled)
      && Settled(handled, worker.ledger, worker.rows, mailAt, Served())
    }

    predicate AllActive(aliases: map<string, bool>) { forall a | a in steady :: a in aliases && aliases[a] }

    function Served(): set<string> { steady - broken }

    /** A mail that cannot be fetched or is not accepted: both limits on its size, and faults. */
    predicate Blocked(k: Key, lost: set<Key>) {
      var size := mailAt(k).size;
      k in lost || (size <= 8_000_000 && (size == 0 || size > worker.maxEmailBytes))
    }

    /** Too large, or taken in by the Worker and stored exactly once for every alias served. */
    ghost predicate Passed(k: Key)
      reads worker
    {
      || mailAt(k).size > 8_000_000
      || (Uploaded(worker.ledger, mailAt(k)) && DeliveredOnce(worker.rows, mailAt(k), Served()))
    }

    /** How far a cycle comes: what is in `all` above the cursor stays there only because the limit
        is used up or because of a mail that blocks. */
    ghost predicate Onward(folder: string, from: nat, to: nat, all: set<nat>, done: set<Key>, lost: set<Key>) {
      forall u | u in all && u > to ::
        |Between(folder, from, to, done)| >= 20 || BlockedUpTo(folder, to, u, lost)
    }

    ghost predicate BlockedUpTo(folder: string, to: nat, u: nat, lost: set<Key>) {
      exists v :: to < v <= u && Blocked((folder, v), lost)
    }

    /** The loop over the selected UIDs went on to the limit, to the end or to a mail that blocks. */
    ghost predicate Stopped(folder: string, uids: seq<nat>, done: nat, lost: set<Key>) {
      && done <= |uids| && done <= CYCLE_LIMIT && (forall i | 0 <= i < done :: !Blocked((folder, uids[i]), lost))
      && (done < |uids| && done < CYCLE_LIMIT ==> Blocked((folder, uids[done]), lost))
    }

    lemma StoppedOnward(folder: string, uids: seq<nat>, done: nat, from: nat, all: set<nat>, lost: set<Key>)
      requires from > 0 && Selected(uids, all, from)
      requires Stopped(folder, uids, done, lost) && Through(folder, uids, done, handled)
      ensures Onward(folder, from, if done == 0 then from else uids[done - 1], all, handled, lost)
    {
      var to := if done == 0 then from else uids[done - 1];
      forall i | 0 <= i < |uids| ensures uids[i] > from {
        assert uids[i] in uids;
      }
      forall u | u in all && u > to
        ensures |Between(folder, from, to, handled)| >= CYCLE_LIMIT || BlockedUpTo(folder, to, u, lost)
      {
        var j :| 0 <= j < |uids| && uids[j] == u;
        assert j >= done;
        if done < CYCLE_LIMIT {
          assert to < uids[done] <= u && Blocked((folder, uids[done]), lost);
        } else {
          RisingCount(uids, done);
          SmallerSet(set i | 0 <= i < done :: uids[i], Between(folder, from, to, handled));
        }
      }
    }

    /** A later sync, of this folder or of another one, takes nothing of that back. */
    lemma OnwardLater(f: string, folder: string, from: nat, was: nat, now: nat, all: set<nat>, left: set<nat>,
                      before: set<nat>, done: set<Key>, more: set<Key>, lost: set<Key>)
      requires from <= was && done <= more && all * left <= before
      requires f != folder ==> was == now && Onward(f, from, was, all * before, done, lost)
      requires f == folder ==> Onward(f, was, now, before, more, lost)
      ensures Onward(f, from, now, all * left, more, lost)
    {
      if f == folder {
        MoreBetween(f, from, was, now, more, more);
      } else {
        MoreBetween(f, from, from, now, done, more);
      }
    }

    /** Nothing that was achieved is lost. */
    twostate predicate Grows()
      reads this, worker
    {
      old(handled) <= handled && old(worker.rows) <= worker.rows && old(worker.ledger) <= worker.ledger
    }

    constructor (worker: MessageWorker, mailAt: Key -> Mail, steady: set<string>, broken: set<string>)
      requires worker.Valid() && Honoured(worker.rows, worker.ledger)
      requires forall a | a in steady :: a in worker.aliases && worker.aliases[a]
      ensures Valid(saved) && this.worker == worker && this.mailAt == mailAt && saved == map[] && handled == {}
      ensures this.steady == steady && this.broken == broken
    {
      this.worker, this.mailAt, this.steady, this.broken := worker, mailAt, steady, broken;
      saved, server, handled, base := map[], map[], {}, map[];
    }

    /** run_once.  The file is replaced atomically and only at the end of a cycle; the cycle dies
        before its step `dies`, if it gets there.  Cursors only grow, and every mail that a positive
        cursor passes is too large or stored exactly once for every alias served.  A cycle that does
        not die brings each folder that can be searched to its limit or to a mail that blocks. */
    method RunOnce(scanFolders: seq<string>, lost: set<Key>, down: set<string>, recent: set<Key>, dies: nat)
      returns (uploaded: nat, skipped: nat)
      requires Valid(saved)
      modifies this, worker`rows, worker`aliases, worker`ledger
      ensures Valid(saved) && Grows() && BaseKept(old(saved), old(base), base) && Later(old(server), server)
      ensures Ahead(old(saved), saved)
      ensures forall f, u | f in old(saved) && f in saved && f in server && u in server[f].uids
                            && 0 < old(saved)[f] < u <= saved[f] :: Passed((f, u))
      ensures |worker.ledger| >= |old(worker.ledger)| + uploaded
      ensures dies <= |scanFolders| ==> saved == old(saved)
      ensures dies > |scanFolders| ==>
                CameOnward(scanFolders, down, lost, old(saved), saved, old(server), server, handled)
    {
      assert forall f | At(saved, f) > 0 :: SureIn(f, At(saved, f), base, server, handled);
      var cursors;
      cursors, uploaded, skipped := SyncFolders(scanFolders, lost, down, recent, dies);
      if dies <= |scanFolders| {
        SavedStillValid(cursors, old(base));
        return;
      }
      saved := cursors;
      PassedAreHandled(old(saved), old(base));
    }

    /** The loop over the folders, as far as it gets. */
    method SyncFolders(scanFolders: seq<string>, lost: set<Key>, down: set<string>, recent: set<Key>, dies: nat)
      returns (cursors: Cursors, uploaded: nat, skipped: nat)
      requires Valid(saved)
      modifies this`server, this`handled, this`base, worker`rows, worker`aliases, worker`ledger
      ensures Valid(cursors) && Grows() && BaseKept(saved, old(base), base) && Later(old(server), server)
      ensures Ahead(saved, cursors) && |worker.ledger| >= |old(worker.ledger)| + uploaded
      ensures dies > |scanFolders| ==> CameOnward(scanFolders, down, lost, saved, cursors, old(server), server, handled)
    {
      cursors, uploaded, skipped := saved, 0, 0;
      assert forall f | At(saved, f) > 0 :: SureIn(f, At(saved, f), base, server, handled);
      for i := 0 to |scanFolders|
        invariant Valid(cursors) && Grows() && Later(old(server), server) && i <= dies
        invariant BaseKept(saved, old(base), base) && Ahead(saved, cursors)
        invariant |worker.ledger| >= |old(worker.ledger)| + uploaded
        invariant CameOnward(scanFolders[..i], down, lost, saved, cursors, old(server), server, handled)
      {
        if i == dies {
          return;
        }
        assert scanFolders[..i + 1] == scanFolders[..i] + [scanFolders[i]];
        var moved, pushed, ignored :=
          NextFolder(scanFolders[..i], scanFolders[i], cursors, lost, down, recent, old(server));
        cursors, uploaded, skipped := moved, uploaded + pushed, skipped + ignored;
      }
      assert scanFolders[..|scanFolders|] == scanFolders;
    }

    /** The body of that loop; `first` is the server at the start of the cycle. */
    method NextFolder(ghost folders: seq<string>, folder: string, cursors: Cursors, lost: set<Key>,
                      down: set<string>, recent: set<Key>, ghost first: Mailbox)
      returns (moved: Cursors, uploaded: nat, skipped: nat)
      requires Valid(cursors) && Ahead(saved, cursors) && Assigned(first) && Later(first, server)
      requires CameOnward(folders, down, lost, saved, cursors, first, server, handled)
      modifies this`server, this`handled, this`base, worker`rows, worker`aliases, worker`ledger
      ensures Valid(moved) && Grows() && BaseKept(cursors, old(base), base) && Later(first, server)
      ensures Ahead(saved, moved) && |worker.ledger| >= |old(worker.ledger)| + uploaded
      ensures CameOnward(folders + [folder], down, lost, saved, moved, first, server, handled)
    {
      ghost var before, done, picked := server, handled, [];
      moved, uploaded, skipped, picked := SyncFolder(folder, cursors, lost, down, recent);
      LaterTwice(first, before, server);
      AheadTwice(saved, cursors, moved);
      OneMoreFolder(folders, folder, down, lost, cursors, first, before, done, picked, uploaded + skipped);
    }

    /** Every folder that had a cursor and could be searched came as far as it could. */
    ghost predicate CameOnward(folders: seq<string>, down: set<string>, lost: set<Key>, was: Cursors, now: Cursors,
                               first: Mailbox, last: Mailbox, done: set<Key>) {
      forall f | f in folders && f !in down && f in first && f in last && f in was && f in now && was[f] > 0 ::
        Onward(f, was[f], now[f], first[f].uids * last[f].uids, done, lost)
    }

    lemma OneMoreFolder(folders: seq<string>, folder: string, down: set<string>, lost: set<Key>, cursors: Cursors,
                        first: Mailbox, before: Mailbox, done: set<Key>, picked: seq<nat>, count: nat)
      requires Assigned(first) && Later(first, before) && Later(before, server) && done <= handled
      requires Ahead(saved, cursors)
      requires CameOnward(folders, down, lost, saved, cursors, first, before, done)
      requires Through(folder, picked, count, handled) && Stopped(folder, picked, count, lost)
      requires folder !in down && folder in before ==> Selected(picked, before[folder].uids, At(cursors, folder))
      ensures CameOnward(folders + [folder], down, lost, saved, Moved(folder, cursors, picked, count), first, server,
                         handled)
    {
      var moved := Moved(folder, cursors, picked, count);
      if folder !in down && folder in before && At(cursors, folder) > 0 {
        StoppedOnward(folder, picked, count, At(cursors, folder), before[folder].uids, lost);
      }
      forall f | f in folders + [folder] && f !in down && f in first && f in server && f in saved && f in moved
                 && saved[f] > 0
        ensures Onward(f, saved[f], moved[f], first[f].uids * server[f].uids, handled, lost)
      {
        assert At(saved, f) == saved[f] && At(moved, f) == moved[f] && At(cursors, f) == cursors[f];
        StillThere(first, before, server, f);
        OnwardLater(f, folder, At(saved, f), At(cursors, f), At(moved, f), first[f].uids, server[f].uids,
                    before[f].uids, done, handled, lost);
      }
    }

    /** After a death the cursors on disk are as good as those in memory. */
    lemma SavedStillValid(cursors: Cursors, wasBase: Cursors)
      requires Valid(cursors) && BaseKept(saved, wasBase, base)
      requires forall f | At(saved, f) > 0 :: f in wasBase && wasBase[f] <= At(saved, f) <= At(cursors, f)
      ensures Valid(saved)
    {
      forall f | At(saved, f) > 0 ensures SureIn(f, At(saved, f), base, server, handled) {
        assert SureIn(f, At(cursors, f), base, server, handled);
      }
    }

    lemma PassedAreHandled(was: Cursors, wasBase: Cursors)
      requires Valid(saved) && BaseKept(was, wasBase, base)
      requires forall f | At(was, f) > 0 :: f in wasBase && wasBase[f] <= At(was, f) <= At(saved, f)
      ensures forall f, u | f in was && f in saved && f in server && u in server[f].uids
                            && 0 < was[f] < u <= saved[f] :: Passed((f, u))
    {
      forall f, u | f in was && f in saved && f in server && u in server[f].uids && 0 < was[f] < u <= saved[f]
        ensures Passed((f, u))
      {
        assert At(was, f) == was[f] && SureIn(f, At(saved, f), base, server, handled);
        HandledArePassed((f, u));
      }
    }

    lemma HandledArePassed(k: Key)
      requires Valid(saved) && k in handled
      ensures Passed(k)
    {
      var mail := mailAt(k);
      assert Done(mail, worker.ledger, worker.rows, Served());
      forall i | 0 <= i < |mail.recipients| && i < 24 && mail.recipients[i] in Served()
                 && mail.size <= MAX_MESSAGE_BYTES
        ensures Pair(worker.rows, mail.recipients[i], mail.message) == 1
      {
        PairIsOne(worker.rows, worker.aliases, mail.recipients[i], mail.message);
      }
    }

    /** run: any number of cycles, each of which may die.  What was passed since the start of
        the first of them was handled, whichever cycle passed it. */
    method Run(scanFolders: seq<string>, cycles: nat)
      requires Valid(saved)
      modifies this, worker`rows, worker`aliases, worker`ledger
      ensures Valid(saved) && Grows() && BaseKept(old(saved), old(base), base)
      ensures Ahead(old(saved), saved)
      ensures forall f, u | f in old(saved) && f in saved && f in server && u in server[f].uids
                            && 0 < old(saved)[f] < u <= saved[f] :: Passed((f, u))
    {
      assert forall f | At(saved, f) > 0 :: SureIn(f, At(saved, f), base, server, handled);
      for i := 0 to cycles
        invariant Valid(saved) && Grows() && BaseKept(old(saved), old(base), base)
        invariant Ahead(old(saved), saved)
      {
        var lost: set<Key>, down: set<string>, recent: set<Key>, dies: nat := *, *, *, *;
        var _, _ := RunOnce(scanFolders, lost, down, recent, dies);
      }
      PassedAreHandled(old(saved), old(base));
    }

    /** _sync_folder.  The cursor moves to the last of the `picked` UIDs that is done. */
    method SyncFolder(folder: string, cursors: Cursors, lost: set<Key>, down: set<string>, recent: set<Key>)
      returns (moved: Cursors, uploaded: nat, skipped: nat, ghost picked: seq<nat>)
      requires Valid(cursors)
      modifies this`server, this`handled, this`base, worker`rows, worker`aliases, worker`ledger
      ensures Valid(moved) && Grows() && BaseKept(cursors, old(base), base) && Later(old(server), server)
      ensures Ahead(cursors, moved)
      ensures Through(folder, picked, uploaded + skipped, handled) && Stopped(folder, picked, uploaded + skipped, lost)
      ensures moved == Moved(folder, cursors, picked, uploaded + skipped)
      ensures |worker.ledger| >= |old(worker.ledger)| + uploaded
      ensures if folder in down || folder !in old(server) then picked == []
              else Selected(picked, old(server)[folder].uids, if folder in cursors then cursors[folder] else 0)
      ensures folder !in down && folder in old(server) && (folder in cursors ==> cursors[folder] == 0) ==>
                Newest(picked, Recent(folder, old(server)[folder].uids, recent))
    {
      if folder in down || folder !in server {
        return cursors, 0, 0, [];
      }
      ghost var was := server;
      var uids := Select(folder, At(cursors, folder), recent);
      uploaded, skipped := Push(folder, uids, lost, cursors);
      picked := uids;
      moved := MoveCursor(folder, cursors, was, uids, uploaded + skipped);
    }

    static function Moved(folder: string, cursors: Cursors, uids: seq<nat>, done: nat): Cursors
      requires done <= |uids|
    {
      if done == 0 then cursors else cursors[folder := uids[done - 1]]
    }

    /** The cursor goes up in memory; a first one is where the folder starts.  `was` is the server
        at the search. */
    method MoveCursor(folder: string, cursors: Cursors, ghost was: Mailbox, uids: seq<nat>, done: nat)
      returns (moved: Cursors)
      requires Valid(cursors)
      requires folder in was && Assigned(was) && Later(was, server)
               && Selected(uids, was[folder].uids, At(cursors, folder))
      requires Through(folder, uids, done, handled)
      modifies this`base
      ensures Valid(moved) && BaseKept(cursors, old(base), base)
      ensures moved == Moved(folder, cursors, uids, done) && Ahead(cursors, moved)
    {
      if done == 0 {
        return cursors;
      }
      var highest := uids[done - 1];
      SureMoved(folder, At(cursors, folder), base, was, server, handled, uids, done);
      SureAfter(cursors, folder, highest, base, server, handled);
      if At(cursors, folder) == 0 {
        base := base[folder := highest];
      }
      MovedAhead(cursors, folder, highest);
      moved := cursors[folder := highest];
    }

    /** The UIDs of one cycle, lowest first; the first cycle starts with the last twenty. */
    method Select(folder: string, cursor: nat, recent: set<Key>) returns (uids: seq<nat>)
      requires folder in server
      ensures Selected(uids, server[folder].uids, cursor)
      ensures cursor == 0 ==> Newest(uids, Recent(folder, server[folder].uids, recent))
    {
      var answer := Search(folder, cursor, recent);
      AscendSorted(answer);
      AboveSorted(Ascend(answer), cursor);
      uids := Above(Ascend(answer), cursor);
      if cursor == 0 && |uids| > CYCLE_LIMIT {
        SuffixRises(uids, |uids| - CYCLE_LIMIT);
        SuffixIsNewest(uids, |uids| - CYCLE_LIMIT);
        uids := uids[|uids| - CYCLE_LIMIT..];
      }
    }

    /** The answer to SINCE, any UIDs, or to UID n:*, all from n on and the last one in any case. */
    method Search(folder: string, cursor: nat, recent: set<Key>) returns (answer: seq<nat>)
      requires folder in server
      ensures cursor == 0 ==> forall u :: u in answer <==> u in Recent(folder, server[folder].uids, recent)
      ensures Distinct(answer) && forall u | u in answer :: u in server[folder].uids
      ensures cursor > 0 ==> forall u | u in server[folder].uids && u > cursor :: u in answer
    {
      var wanted: set<nat> := *;
      var all := server[folder].uids;
      var left := if cursor > 0 then set u | u in all && (u > cursor || u in wanted) else Recent(folder, all, recent);
      ghost var found := left;
      answer := [];
      while left != {}
        invariant Distinct(answer) && forall u | u in answer :: u !in left
        invariant forall u :: u in found <==> u in answer || u in left
        decreases left
      {
        var u :| u in left;
        answer, left := answer + [u], left - {u};
      }
    }

    /** The loop over the selected UIDs; it stops at the first mail that cannot be fetched or is
        not accepted. */
    method Push(folder: string, uids: seq<nat>, lost: set<Key>, ghost cursors: Cursors)
      returns (uploaded: nat, skipped: nat)
      requires Valid(cursors)
      modifies this`server, this`handled, worker`rows, worker`aliases, worker`ledger
      ensures Valid(cursors) && Grows() && Later(old(server), server)
      ensures Through(folder, uids, uploaded + skipped, handled) && Stopped(folder, uids, uploaded + skipped, lost)
      ensures |worker.ledger| >= |old(worker.ledger)| + uploaded
    {
      uploaded, skipped := 0, 0;
      while uploaded + skipped < |uids| && uploaded + skipped < CYCLE_LIMIT
        invariant Valid(cursors) && Grows() && Later(old(server), server)
        invariant Through(folder, uids, uploaded + skipped, handled) && uploaded + skipped <= CYCLE_LIMIT
        invariant forall i | 0 <= i < uploaded + skipped :: !Blocked((folder, uids[i]), lost)
        invariant |worker.ledger| >= |old(worker.ledger)| + uploaded
        decreases |uids| - uploaded - skipped
      {
        var step := PushOne(folder, uids[uploaded + skipped], lost, cursors);
        match step
        case Stop => return;
        case TooLarge => skipped := skipped + 1;
        case Accepted => uploaded := uploaded + 1;
      }
    }

    /** The body of that loop. */
    method PushOne(folder: string, uid: nat, lost: set<Key>, ghost cursors: Cursors) returns (step: Step)
      requires Valid(cursors)
      modifies this`server, this`handled, worker`rows, worker`aliases, worker`ledger
      ensures Valid(cursors) && Grows() && Later(old(server), server)
      ensures step == Stop <==> Blocked((folder, uid), lost)
      ensures step != Stop ==> (folder, uid) in handled
      ensures step == TooLarge <==> mailAt((folder, uid)).size > 8_000_000 && (folder, uid) !in lost
      ensures step == Accepted ==> |worker.ledger| > |old(worker.ledger)|
    {
      Elsewhere(cursors);
      var k, fetched: bool := (folder, uid), *;
      var size := mailAt(k).size;
      if k in lost && (!fetched || size > MAX_MESSAGE_BYTES) {
        return Stop;
      }
      if size > MAX_MESSAGE_BYTES {
        Handle(k, cursors);
        return TooLarge;
      }
      var ok, _ := Upload(folder, uid, k in lost, cursors);
      return if ok then Accepted else Stop;
    }

    /** The control route hands the mail to the Worker.  A request that is lost may still reach it,
        or part of its way; only the reply is missing. */
    method Ask(mail: Mail, failing: set<string>, lost: bool)
      requires worker.Valid() && Honoured(worker.rows, worker.ledger)
      requires mail.forInbox && mail.size <= worker.maxEmailBytes
      modifies worker`rows, worker`aliases, worker`ledger
      ensures worker.Valid() && Honoured(worker.rows, worker.ledger)
      ensures old(worker.rows) <= worker.rows && old(worker.ledger) <= worker.ledger
      ensures Steady(steady, old(worker.aliases), worker.aliases)
      ensures !lost ==> |worker.ledger| > |old(worker.ledger)|
      ensures !lost ==> worker.ledger[|worker.ledger| - 1] == Receipt(mail, old(worker.Found(mail, failing)))
      ensures !lost && failing <= broken && old(AllActive(worker.aliases)) ==>
                DeliveredOnce(worker.rows, mail, Served())
    {
      var now: int, ids: seq<string>, dies: nat := *, *, *;
      if !lost {
        NewIdsAreDrawn(worker.rows, |mail.Read()|);
        ids, dies := NewIds(worker.rows, |mail.Read()|), |mail.Read()|;
      }
      var _, _ := worker.Ingest(mail, now, ids, failing, dies, steady);
    }

    lemma TakenIsDelivered(mail: Mail)
      requires worker.Valid() && DeliveredOnce(worker.rows, mail, Served())
      ensures Delivered(worker.rows, mail, Served())
    {
      forall k | 0 <= k < |mail.recipients| && k < 24 && mail.recipients[k] in Served()
        ensures Has(worker.rows, mail.recipients[k], mail.message)
      {
        PairIsOne(worker.rows, worker.aliases, mail.recipients[k], mail.message);
      }
    }

    /** _upload: true exactly if the request is not lost and the size is accepted, and then the Worker
        took the mail in for the aliases it found. */
    method Upload(folder: string, uid: nat, lost: bool, ghost cursors: Cursors)
      returns (ok: bool, ghost failing: set<string>)
      requires Valid(cursors)
      modifies this`handled, worker`rows, worker`aliases, worker`ledger
      ensures Valid(cursors) && Grows() && failing <= broken
      ensures ok <==> !lost && 0 < mailAt((folder, uid)).size <= worker.maxEmailBytes
      ensures ok ==> handled == old(handled) + {(folder, uid)}
      ensures ok ==> |worker.ledger| > |old(worker.ledger)|
      ensures ok ==> var mail := Sent(mailAt((folder, uid)));
                     worker.ledger[|worker.ledger| - 1] == Receipt(mail, old(worker.Found(mail, failing)))
    {
      var mail := Sent(mailAt((folder, uid)));
      if mail.size == 0 || mail.size > worker.maxEmailBytes {
        return false, {};
      }
      var faults: set<string> := *;
      faults := faults * broken;
      failing := faults;
      Ask(mail, faults, lost);
      SettledLater(handled, old(worker.ledger), worker.ledger, old(worker.rows), worker.rows, mailAt, Served());
      ok := !lost;
      if ok {
        assert worker.ledger[|worker.ledger| - 1] in worker.ledger;
        TakenIsDelivered(mailAt((folder, uid)));
        Handle((folder, uid), cursors);
      }
    }

    /** One more UID is done. */
    ghost method Handle(k: Key, cursors: Cursors)
      requires Valid(cursors) && Done(mailAt(k), worker.ledger, worker.rows, Served())
      modifies this`handled
      ensures Valid(cursors) && handled == old(handled) + {k}
    {
      handled := handled + {k};
      SureLater(cursors, base, server, server, old(handled), handled);
    }

    /** Mail arrives and is deleted, and other mail reaches the Worker. */
    method Elsewhere(ghost cursors: Cursors)
      requires Valid(cursors)
      modifies this`server, worker`rows, worker`aliases, worker`ledger
      ensures Valid(cursors) && Grows() && handled == old(handled) && Later(old(server), server)
    {
      var next: Mailbox := *;
      if Later(server, next) && Assigned(next) {
        server := next;
        SureLater(cursors, base, old(server), server, handled, handled);
      }
      worker.Meanwhile(steady, {});
      SettledLater(handled, old(worker.ledger), worker.ledger, old(worker.rows), worker.rows, mailAt, Served());
    }

    /** Every mail on the server between the start of a folder and its cursor is too large or was
        taken in by the Worker, and is stored exactly once for every alias served. */
    lemma NothingPassedOver(folder: string, uid: nat)
      requires Valid(saved) && folder in server && uid in server[folder].uids
      requires folder in base && base[folder] < uid <= At(saved, folder)
      ensures Passed((folder, uid))
    {
      assert SureIn(folder, At(saved, folder), base, server, handled);
      HandledArePassed((folder, uid));
    }

    /** And each alias that any of its ingests found has exactly one row of it, however often it
        was uploaded. */
    lemma StoredExactlyOnce(folder: string, uid: nat, r: Receipt, alias: string)
      requires Valid(saved) && r in worker.ledger && r.mail == Sent(mailAt((folder, uid))) && alias in r.found
      ensures Pair(worker.rows, alias, mailAt((folder, uid)).message) == 1
    {
      PairIsOne(worker.rows, worker.aliases, alias, r.mail.message);
    }
  }
}
