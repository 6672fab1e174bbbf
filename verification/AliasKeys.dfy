/** Access keys of local aliases and the guarded reconcile with the remote list
    (icloud_gateway/database.py, icloud_gateway/service.py). */
module AliasKeys {
  import opened Options
  import opened Ordering

  /** The digest of a key; different keys have different digests. */
  datatype Hash = Hash(key: string)

  /** One row, found by its address.  `remote` says that remote metadata is stored, `blob` is
      the key that decrypting the stored text gives; rows from before it was stored have none. */
  datatype Alias = Alias(remote: bool, active: bool,
                         hash: Option<Hash>, hint: Option<string>, blob: Option<string>, revoked: bool)

  type Table = map<string, Alias>

  datatype Outcome = Done | NotFound | Conflict

  // ---------------------------------------------------------------- rows

  predicate KeySound(a: Alias) {
    && (a.hash.Some? ==> a.active && !a.revoked)
    && (a.hash.Some? <==> a.hint.Some?)
    && (a.blob.Some? ==> a.hash == Some(Hash(a.blob.value)))
  }

  /** A stored hash means active, not revoked and held by no other alias. */
  predicate Sound(table: Table) {
    && (forall e | e in table :: KeySound(table[e]))
    && (forall e, f | e in table && f in table && e != f && table[e].hash.Some? :: table[e].hash != table[f].hash)
  }

  /** The CASE expressions that every change of state shares. */
  function InState(a: Alias, active: bool): Alias {
    if active then a.(active := true) else Alias(a.remote, false, None, None, None, true)
  }

  function New(remote: bool, active: bool): Alias { Alias(remote, active, None, None, None, false) }

  /** The last four characters. */
  function HintOf(key: string): string { if |key| < 4 then key else key[|key| - 4..] }

  function WithKey(a: Alias, key: string): Alias {
    a.(hash := Some(Hash(key)), hint := Some(HintOf(key)), blob := Some(key), revoked := false)
  }

  function WithoutKey(a: Alias): Alias { a.(hash := None, hint := None, blob := None, revoked := true) }

  /** Switching an alias on changes nothing but its state; switched off it has no key, and the key
      counts as revoked. */
  lemma StateMeans(a: Alias, active: bool)
    ensures var b := InState(a, active);
            && b.active == active && b.remote == a.remote
            && (active ==> b.hash == a.hash && b.hint == a.hint && b.blob == a.blob && b.revoked == a.revoked)
            && (!active ==> b.hash == None && b.hint == None && b.blob == None && b.revoked)
  {}

  /** Some alias other than e holds the key. */
  predicate HeldElsewhere(table: Table, e: string, key: string) {
    exists f | f in table :: f != e && table[f].hash == Some(Hash(key))
  }

  /** find_alias_by_access_key_hash */
  predicate Matches(table: Table, key: string, e: string) {
    e in table && table[e].hash == Some(Hash(key)) && !table[e].revoked && table[e].active
  }

  ghost function Find(table: Table, key: string): Option<string> {
    if e: string :| Matches(table, key, e) then Some(e) else None
  }

  /** reveal_access_key: the key of an alias if it can be recovered. */
  function Reveal(table: Table, e: string): Option<string> {
    if e in table && table[e].active && table[e].hash.Some? && !table[e].revoked && table[e].blob.Some?
       && table[e].hash == Some(Hash(table[e].blob.value))
    then table[e].blob else None
  }

  // ---------------------------------------------------------------- what the keys promise

  /** Looking a key up is a partial injective map: it finds exactly the alias that stores its
      hash, and two keys never find the same alias. */
  lemma LookupIsInjective(table: Table, key: string, other: string, e: string)
    requires Sound(table)
    ensures Find(table, key) == Some(e) <==> e in table && table[e].hash == Some(Hash(key))
    ensures Find(table, key) == Some(e) && Find(table, other) == Some(e) ==> key == other
  {
    if e in table && table[e].hash == Some(Hash(key)) {
      assert Matches(table, key, e);
    }
  }

  /** What can be revealed opens its own alias. */
  lemma RevealedKeyOpens(table: Table, e: string)
    requires Sound(table) && Reveal(table, e).Some?
    ensures Find(table, Reveal(table, e).value) == Some(e)
  {
    LookupIsInjective(table, Reveal(table, e).value, Reveal(table, e).value, e);
  }

  /** Changing the row of one alias loses nothing but its own key: the old key of e finds
      nothing afterwards, every other key finds what it found. */
  lemma OnlyOwnKeyChanges(table: Table, e: string, a: Alias, key: string)
    requires Sound(table) && Sound(table[e := a]) && a.hash != Some(Hash(key))
    ensures Find(table[e := a], key) == if Find(table, key) == Some(e) then None else Find(table, key)
  {
    var after := table[e := a];
    if Find(table, key).Some? {
      var f := Find(table, key).value;
      LookupIsInjective(table, key, key, f);
      if f != e {
        LookupIsInjective(after, key, key, f);
      }
    }
    if Find(after, key).Some? {
      var f := Find(after, key).value;
      LookupIsInjective(after, key, key, f);
      LookupIsInjective(table, key, key, f);
    }
  }

  lemma StateKeepsLookup(table: Table, e: string, active: bool, key: string)
    requires Sound(table) && e in table && Sound(table[e := InState(table[e], active)])
    ensures Find(table[e := InState(table[e], active)], key)
         == if !active && Find(table, key) == Some(e) then None else Find(table, key)
  {
    var a := InState(table[e], active);
    if a.hash == Some(Hash(key)) {
      LookupIsInjective(table, key, key, e);
      LookupIsInjective(table[e := a], key, key, e);
    } else {
      OnlyOwnKeyChanges(table, e, a, key);
      LookupIsInjective(table, key, key, e);
    }
  }

  /** A rotated key finds nothing, the new one finds the alias. */
  lemma RotatedKeyIsDead(table: Table, e: string, oldKey: string, newKey: string)
    requires Sound(table) && Find(table, oldKey) == Some(e) && newKey != oldKey && !HeldElsewhere(table, e, newKey)
    ensures e in table && Sound(table[e := WithKey(table[e], newKey)])
    ensures Find(table[e := WithKey(table[e], newKey)], oldKey) == None
    ensures Find(table[e := WithKey(table[e], newKey)], newKey) == Some(e)
  {
    LookupIsInjective(table, oldKey, oldKey, e);
    KeyFits(table, e, newKey);
    var after := table[e := WithKey(table[e], newKey)];
    OnlyOwnKeyChanges(table, e, after[e], oldKey);
    LookupIsInjective(after, newKey, newKey, e);
  }

  lemma KeyFits(table: Table, e: string, key: string)
    requires Sound(table) && e in table && table[e].active && !HeldElsewhere(table, e, key)
    ensures Sound(table[e := WithKey(table[e], key)])
  {}

  // ---------------------------------------------------------------- the guarded reconcile

  datatype Remote = Remote(email: string, anonymousId: string, active: bool, wellFormed: bool)

  /** sync_remote_alias */
  function Synced(table: Table, r: Remote): Table {
    var row := if r.email in table then InState(table[r.email].(remote := true), r.active) else New(true, r.active);
    table[r.email := row]
  }

  function AllSynced(table: Table, snapshot: seq<Remote>): Table {
    if snapshot == [] then table else Synced(AllSynced(table, snapshot[..|snapshot| - 1]), snapshot[|snapshot| - 1])
  }

  function Emails(snapshot: seq<Remote>): set<string> { set r | r in snapshot :: r.email }

  /** The aliases that carry remote metadata. */
  function Managed(table: Table): set<string> { set e | e in table && table[e].remote }

  function Limit(known: nat): nat { if known / 10 < 5 then 5 else known / 10 }

  predicate DistinctEmails(snapshot: seq<Remote>) {
    forall i, j | 0 <= i < j < |snapshot| :: snapshot[i].email != snapshot[j].email
  }

  predicate DistinctIds(snapshot: seq<Remote>) {
    forall i, j | 0 <= i < j < |snapshot| :: snapshot[i].anonymousId != snapshot[j].anonymousId
  }

  /** finish_remote_sync */
  function SwitchedOff(table: Table, seen: set<string>): Table {
    map e | e in table :: if table[e].remote && e !in seen then InState(table[e], false) else table[e]
  }

  lemma {:induction false} EmailsSize(snapshot: seq<Remote>)
    requires DistinctEmails(snapshot)
    ensures |Emails(snapshot)| == |snapshot|
  {
    if snapshot != [] {
      var init, last := snapshot[..|snapshot| - 1], snapshot[|snapshot| - 1];
      EmailsSize(init);
      assert snapshot == init + [last];
      assert Emails(snapshot) == Emails(init) + {last.email};
      assert last.email !in Emails(init);
    }
  }

  lemma SyncedOnce(table: Table, r: Remote)
    requires Sound(table)
    ensures Sound(Synced(table, r)) && Managed(Synced(table, r)) == Managed(table) + {r.email}
  {}

  /** Outside the addresses in `named` nothing was changed. */
  ghost predicate SameOutside(was: Table, now: Table, named: set<string>) {
    forall e | e !in named :: (e in was <==> e in now) && (e in was ==> now[e] == was[e])
  }

  lemma {:induction false} SyncedFacts(table: Table, snapshot: seq<Remote>)
    requires Sound(table)
    ensures Sound(AllSynced(table, snapshot))
    ensures Managed(AllSynced(table, snapshot)) == Managed(table) + Emails(snapshot)
    ensures SameOutside(table, AllSynced(table, snapshot), Emails(snapshot))
  {
    if snapshot != [] {
      var init, last := snapshot[..|snapshot| - 1], snapshot[|snapshot| - 1];
      SyncedFacts(table, init);
      SyncedOnce(AllSynced(table, init), last);
      assert snapshot == init + [last];
      assert Emails(snapshot) == Emails(init) + {last.email};
    }
  }

  /** Counting is enough: with a duplicate-free snapshot the difference of the two counts is the
      number of managed aliases that are missing from it. */
  lemma MissingIsDifference(table: Table, snapshot: seq<Remote>)
    requires Sound(table) && DistinctEmails(snapshot)
    ensures |Managed(AllSynced(table, snapshot))| - |snapshot| == |Managed(table) - Emails(snapshot)|
  {
    SyncedFacts(table, snapshot);
    EmailsSize(snapshot);
    UnionSize(Managed(table), Emails(snapshot));
  }

  lemma UnionSize(a: set<string>, b: set<string>)
    ensures |a + b| == |a - b| + |b|
  {
    assert a + b == (a - b) + b;
  }

  /** The active aliases that a reconcile turns inactive although the snapshot does not say so. */
  function Dropped(table: Table, after: Table, snapshot: seq<Remote>): set<string> {
    set e | e in table && table[e].active && e !in Emails(snapshot) && e in after && !after[e].active
  }

  function Reconciled(table: Table, snapshot: seq<Remote>): Table {
    var synced := AllSynced(table, snapshot);
    if |Managed(synced)| - |snapshot| > Limit(|Managed(synced)|) then synced else SwitchedOff(synced, Emails(snapshot))
  }

  lemma SwitchedFacts(table: Table, seen: set<string>)
    requires Sound(table)
    ensures Sound(SwitchedOff(table, seen))
    ensures forall e | e in table && !(table[e].remote && e !in seen) :: SwitchedOff(table, seen)[e] == table[e]
    ensures forall e | e in table && table[e].remote && e !in seen ::
              SwitchedOff(table, seen)[e] == InState(table[e], false)
  {}

  /** What a reconcile drops: nothing when too many managed aliases are absent, otherwise exactly
      the active ones among them. */
  function DropList(table: Table, snapshot: seq<Remote>): set<string> {
    var absent := Managed(table) - Emails(snapshot);
    if |absent| > Limit(|Managed(table) + Emails(snapshot)|) then {} else set e | e in absent && table[e].active
  }

  /** One reconcile drops at most max(5, a tenth) of the managed aliases: either none, or exactly
      the active managed aliases that the snapshot does not name.  Every other alias it does not
      name keeps its row. */
  lemma ReconcileDropsFew(table: Table, snapshot: seq<Remote>)
    requires Sound(table) && DistinctEmails(snapshot)
    ensures Sound(Reconciled(table, snapshot))
    ensures Dropped(table, Reconciled(table, snapshot), snapshot) == DropList(table, snapshot)
    ensures |DropList(table, snapshot)| <= 5 || 10 * |DropList(table, snapshot)| <= |Managed(table) + Emails(snapshot)|
    ensures var absent := Managed(table) - Emails(snapshot);
            DropList(table, snapshot)
            == if |absent| <= 5 || 10 * |absent| <= |Managed(table) + Emails(snapshot)|
            then set e | e in absent && table[e].active else {}
    ensures forall e | e in table && e !in Emails(snapshot) && e !in DropList(table, snapshot) ::
              && e in Reconciled(table, snapshot)
              && Reconciled(table, snapshot)[e].(revoked := false) == table[e].(revoked := false)
  {
    var synced := AllSynced(table, snapshot);
    var absent := Managed(table) - Emails(snapshot);
    SyncedFacts(table, snapshot);
    MissingIsDifference(table, snapshot);
    SwitchedFacts(synced, Emails(snapshot));
    if |absent| <= Limit(|Managed(synced)|) {
      SmallerSet(DropList(table, snapshot), absent);
      DroppedIs(table, synced, snapshot);
    } else {
      assert Dropped(table, synced, snapshot) == {};
    }
  }

  /** An alias that the snapshot names follows it. */
  lemma NamedFollow(table: Table, snapshot: seq<Remote>, r: Remote)
    requires Sound(table) && DistinctEmails(snapshot) && r in snapshot
    ensures var after := Reconciled(table, snapshot);
            r.email in after && after[r.email].active == r.active && after[r.email].remote
  {
    NamedSynced(table, snapshot, r);
    assert r.email in Emails(snapshot);
  }

  lemma {:induction false} NamedSynced(table: Table, snapshot: seq<Remote>, r: Remote)
    requires Sound(table) && DistinctEmails(snapshot) && r in snapshot
    ensures var after := AllSynced(table, snapshot);
            r.email in after && after[r.email].active == r.active && after[r.email].remote
  {
    var init, last := snapshot[..|snapshot| - 1], snapshot[|snapshot| - 1];
    if r != last {
      assert r in init;
      NamedSynced(table, init, r);
      var i :| 0 <= i < |init| && init[i] == r;
      assert snapshot[i].email != snapshot[|snapshot| - 1].email;
    }
  }

  lemma DroppedIs(table: Table, synced: Table, snapshot: seq<Remote>)
    requires Sound(table) && Sound(synced) && SameOutside(table, synced, Emails(snapshot))
    ensures var after := SwitchedOff(synced, Emails(snapshot));
            && Dropped(table, after, snapshot) == (set e | e in Managed(table) - Emails(snapshot) && table[e].active)
            && forall e | e in table && e !in Emails(snapshot) && !(table[e].remote && table[e].active) ::
                 e in after && after[e].(revoked := false) == table[e].(revoked := false)
  {}

  // ---------------------------------------------------------------- the database

  class AliasDatabase {
    var aliases: Table

    ghost predicate Valid()
      reads this
    {
      Sound(aliases)
    }

    constructor ()
      ensures Valid() && aliases == map[]
    {
      aliases := map[];
    }

    predicate KeepsKey(was: Alias, now: Alias) {
      now.hash == was.hash && now.hint == was.hint && now.blob == was.blob && now.revoked == was.revoked
    }

    /** The row has the key, shows its last four characters and is not revoked. */
    predicate Carries(was: Alias, now: Alias, key: string) {
      && now.hash == Some(Hash(key)) && now.blob == Some(key) && !now.revoked && now.active
      && now.remote == was.remote
      && now.hint == Some(if |key| <= 4 then key else key[|key| - 4..])
    }

    ghost predicate OthersStay(was: Table, now: Table, email: string) {
      forall e | e != email :: (e in now <==> e in was) && (e in now ==> now[e] == was[e])
    }

    /** upsert_alias: without metadata the stored metadata stays. */
    method UpsertAlias(email: string, metadata: bool, active: bool)
      requires Valid()
      modifies this
      ensures Valid()
      ensures aliases == old(aliases)[email :=
                         if email in old(aliases)
                         then InState(old(aliases)[email].(remote := old(aliases)[email].remote || metadata), active)
                         else New(metadata, active)]
      ensures email in aliases && aliases[email].active == active
      ensures email !in old(aliases) ==>
                aliases[email].remote == metadata && aliases[email].hash == None && !aliases[email].revoked
      ensures email in old(aliases) ==>
                aliases[email].remote == (old(aliases)[email].remote || metadata)
                && (active ==> KeepsKey(old(aliases)[email], aliases[email]))
                && (!active ==> aliases[email].hash == None && aliases[email].blob == None && aliases[email].revoked)
      ensures OthersStay(old(aliases), aliases, email)
    {
      if email !in aliases {
        aliases := aliases[email := New(metadata, active)];
      } else {
        aliases := aliases[email := InState(aliases[email].(remote := aliases[email].remote || metadata), active)];
      }
    }

    /** set_alias_state: switching off takes hash, hint and text away together. */
    method SetState(email: string, active: bool) returns (outcome: Outcome)
      requires Valid()
      modifies this
      ensures Valid() && (outcome == Done <==> email in old(aliases)) && outcome != Conflict
      ensures aliases == if outcome == Done then old(aliases)[email := InState(old(aliases)[email], active)]
                         else old(aliases)
      ensures outcome == Done ==>
                && aliases[email].active == active && aliases[email].remote == old(aliases)[email].remote
                && (active ==> KeepsKey(old(aliases)[email], aliases[email]))
                && (!active ==> aliases[email].hash == None && aliases[email].hint == None
                                && aliases[email].blob == None && aliases[email].revoked)
      ensures OthersStay(old(aliases), aliases, email)
      ensures forall k ::
                Find(aliases, k)
                == if !active && Find(old(aliases), k) == Some(email) then None else Find(old(aliases), k)
    {
      if email !in aliases {
        forall k ensures Find(aliases, k) != Some(email) {
          LookupIsInjective(aliases, k, k, email);
        }
        return NotFound;
      }
      ghost var was := aliases;
      aliases := aliases[email := InState(aliases[email], active)];
      forall k ensures Find(aliases, k) == if !active && Find(was, k) == Some(email) then None else Find(was, k) {
        StateKeepsLookup(was, email, active, k);
      }
      return Done;
    }

    /** import_access_key */
    method ImportKey(email: string, key: string) returns (outcome: Outcome)
      requires Valid()
      modifies this
      ensures Valid()
      ensures outcome == NotFound <==> email !in old(aliases)
      ensures outcome == Conflict <==>
              email in old(aliases) && (!old(aliases)[email].active || HeldElsewhere(old(aliases), email, key))
      ensures aliases == if outcome == Done then old(aliases)[email := WithKey(old(aliases)[email], key)]
                         else old(aliases)
      ensures outcome == Done ==> Find(aliases, key) == Some(email) && Reveal(aliases, email) == Some(key)
      ensures outcome == Done ==> Carries(old(aliases)[email], aliases[email], key)
      ensures OthersStay(old(aliases), aliases, email)
    {
      if email !in aliases {
        return NotFound;
      }
      if !aliases[email].active || HeldElsewhere(aliases, email, key) {
        return Conflict;
      }
      KeyFits(aliases, email, key);
      aliases := aliases[email := WithKey(aliases[email], key)];
      LookupIsInjective(aliases, key, key, email);
      return Done;
    }

    /** issue_access_key with the key that was drawn, which no alias holds. */
    method IssueKey(email: string, drawn: string) returns (outcome: Outcome)
      requires Valid() && forall f | f in aliases :: aliases[f].hash != Some(Hash(drawn))
      modifies this
      ensures Valid()
      ensures outcome == NotFound <==> email !in old(aliases)
      ensures outcome == Conflict <==> email in old(aliases) && !old(aliases)[email].active
      ensures aliases == if outcome == Done then old(aliases)[email := WithKey(old(aliases)[email], drawn)]
                         else old(aliases)
      ensures outcome == Done ==> Find(aliases, drawn) == Some(email) && Reveal(aliases, email) == Some(drawn)
      ensures outcome == Done ==> Carries(old(aliases)[email], aliases[email], drawn)
      ensures OthersStay(old(aliases), aliases, email)
      ensures outcome == Done ==> forall k | k != drawn ::
                  Find(aliases, k) == if Find(old(aliases), k) == Some(email) then None else Find(old(aliases), k)
    {
      if email !in aliases {
        return NotFound;
      }
      if !aliases[email].active {
        return Conflict;
      }
      ghost var was := aliases;
      KeyFits(aliases, email, drawn);
      aliases := aliases[email := WithKey(aliases[email], drawn)];
      LookupIsInjective(aliases, drawn, drawn, email);
      forall k | k != drawn ensures Find(aliases, k) == if Find(was, k) == Some(email) then None else Find(was, k) {
        OnlyOwnKeyChanges(was, email, WithKey(was[email], drawn), k);
      }
      return Done;
    }

    /** revoke_access_key */
    method RevokeKey(email: string) returns (outcome: Outcome)
      requires Valid()
      modifies this
      ensures Valid() && (outcome == Done <==> email in old(aliases)) && outcome != Conflict
      ensures aliases == if outcome == Done then old(aliases)[email := WithoutKey(old(aliases)[email])]
                         else old(aliases)
      ensures outcome == Done ==>
                aliases[email].revoked && aliases[email].active == old(aliases)[email].active
                && aliases[email].remote == old(aliases)[email].remote && Reveal(aliases, email) == None
      ensures OthersStay(old(aliases), aliases, email)
      ensures outcome == Done ==> forall k ::
                  Find(aliases, k) == if Find(old(aliases), k) == Some(email) then None else Find(old(aliases), k)
    {
      if email !in aliases {
        return NotFound;
      }
      ghost var was := aliases;
      aliases := aliases[email := WithoutKey(aliases[email])];
      forall k ensures Find(aliases, k) == if Find(was, k) == Some(email) then None else Find(was, k) {
        OnlyOwnKeyChanges(was, email, WithoutKey(was[email]), k);
      }
      return Done;
    }

    /** delete_alias */
    method Delete(email: string) returns (outcome: Outcome)
      requires Valid()
      modifies this
      ensures Valid() && (outcome == Done <==> email in old(aliases)) && outcome != Conflict
      ensures aliases == old(aliases) - {email}
    {
      outcome := if email in aliases then Done else NotFound;
      aliases := aliases - {email};
    }

    /** _validated_remote_aliases: every item well formed, no address and no identifier twice. */
    method Validate(items: seq<Remote>, allowEmpty: bool) returns (ok: bool)
      ensures ok <==> (forall r | r in items :: r.wellFormed) && DistinctEmails(items) && DistinctIds(items)
                      && (items == [] ==> allowEmpty || Managed(aliases) == {})
    {
      var seenEmails: set<string>, seenIds: set<string> := {}, {};
      for i := 0 to |items|
        invariant seenEmails == (set k | 0 <= k < i :: items[k].email)
                  && seenIds == (set k | 0 <= k < i :: items[k].anonymousId)
        invariant DistinctEmails(items[..i]) && DistinctIds(items[..i]) && forall k | 0 <= k < i :: items[k].wellFormed
      {
        var r := items[i];
        if !r.wellFormed || r.email in seenEmails || r.anonymousId in seenIds {
          return false;
        }
        seenEmails, seenIds := seenEmails + {r.email}, seenIds + {r.anonymousId};
      }
      assert items[..|items|] == items;
      ok := items != [] || |Managed(aliases)| == 0 || allowEmpty;
    }

    /** _reconcile_remote_aliases of a validated snapshot. */
    method Reconcile(snapshot: seq<Remote>)
      requires Valid() && DistinctEmails(snapshot)
      modifies this
      ensures Valid() && aliases == Reconciled(old(aliases), snapshot)
      ensures forall r | r in snapshot :: r.email in aliases && aliases[r.email].active == r.active
    {
      ReconcileDropsFew(aliases, snapshot);
      forall r | r in snapshot ensures r.email in Reconciled(aliases, snapshot)
        ensures Reconciled(aliases, snapshot)[r.email].active == r.active
      {
        NamedFollow(aliases, snapshot, r);
      }
      var seen := SyncAll(snapshot);
      var known := |Managed(aliases)|;
      var missing := if known < |seen| then 0 else known - |seen|;
      if missing > Limit(known) {
        return;
      }
      aliases := SwitchedOff(aliases, set e | e in seen);
    }

    /** Its loop. */
    method SyncAll(snapshot: seq<Remote>) returns (seen: seq<string>)
      modifies this
      ensures aliases == AllSynced(old(aliases), snapshot)
      ensures |seen| == |snapshot| && (set e | e in seen) == Emails(snapshot)
    {
      seen := [];
      for i := 0 to |snapshot|
        invariant aliases == AllSynced(old(aliases), snapshot[..i])
        invariant |seen| == i && forall k | 0 <= k < i :: seen[k] == snapshot[k].email
      {
        assert snapshot[..i + 1][..i] == snapshot[..i];
        aliases := Synced(aliases, snapshot[i]);
        seen := seen + [snapshot[i].email];
      }
      assert snapshot[..|snapshot|] == snapshot;
      SameEmails(seen, snapshot);
    }
  }

  lemma SameEmails(seen: seq<string>, snapshot: seq<Remote>)
    requires |seen| == |snapshot| && forall k | 0 <= k < |seen| :: seen[k] == snapshot[k].email
    ensures (set e | e in seen) == Emails(snapshot)
  {
    forall e | e in Emails(snapshot) ensures e in seen {
      var k :| 0 <= k < |snapshot| && snapshot[k].email == e;
      assert seen[k] in seen;
    }
    forall e | e in seen ensures e in Emails(snapshot) {
      var k :| 0 <= k < |seen| && seen[k] == e;
      assert snapshot[k] in snapshot;
    }
  }
}
