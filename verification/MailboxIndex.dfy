/** The in-memory index of icloud_gateway/mailbox_watcher.py: at most five codes per recipient,
    pruned by age, answering as if every ingested mail were scanned. */
module MailboxIndex {
  import opened Options
  import opened Ordering

  datatype IndexedCode = IndexedCode(code: string, receivedAt: real, uid: string, folder: string, fromHeader: string)

  const MAX_CODES_PER_ALIAS := 5

  // ---------------------------------------------------------------- the sort key

  predicate IsDigits(s: string) { s != "" && forall i | 0 <= i < |s| :: '0' <= s[i] <= '9' }

  function Decimal(s: string): nat
    requires forall i | 0 <= i < |s| :: '0' <= s[i] <= '9'
  {
    if s == "" then 0 else Decimal(s[..|s| - 1]) * 10 + (s[|s| - 1] as int - '0' as int)
  }

  function UidNumber(uid: string): int { if IsDigits(uid) then Decimal(uid) else -1 }

  function TenTo(n: nat): nat { if n == 0 then 1 else 10 * TenTo(n - 1) }

  lemma {:induction false} DecimalBounds(s: string)
    requires IsDigits(s)
    ensures Decimal(s) < TenTo(|s|) && (s[0] != '0' ==> TenTo(|s| - 1) <= Decimal(s))
  {
    if |s| == 1 {
      assert s[..0] == "" && TenTo(1) == 10;
    } else {
      DecimalBounds(s[..|s| - 1]);
    }
  }

  lemma {:induction false} TenToGrows(m: nat, n: nat)
    requires m <= n
    ensures TenTo(m) <= TenTo(n)
  {
    if m < n {
      TenToGrows(m, n - 1);
    }
  }

  /** UIDs count, they are not spelled: 10 comes after 9, and anything else before all numbers. */
  lemma UidsCount(a: string, b: string)
    requires a != "" && forall i | 0 <= i < |a| :: a[i] in "0123456789"
    ensures b == "" || (exists i :: 0 <= i < |b| && b[i] !in "0123456789") ==> UidNumber(b) < UidNumber(a)
    ensures |b| < |a| && a[0] != '0' ==> UidNumber(b) < UidNumber(a)
  {
    if IsDigits(b) && |b| < |a| {
      DecimalBounds(a);
      DecimalBounds(b);
      TenToGrows(|b|, |a| - 1);
    }
  }

  /** Order of the key (received_at, _uid_sort_key(uid)). */
  predicate KeyLe(x: IndexedCode, y: IndexedCode) {
    || x.receivedAt < y.receivedAt
    || (x.receivedAt == y.receivedAt && UidNumber(x.uid) < UidNumber(y.uid))
    || (x.receivedAt == y.receivedAt && UidNumber(x.uid) == UidNumber(y.uid) && StringLe(x.uid, y.uid))
  }

  lemma KeyTotal()
    ensures Total(KeyLe)
  {
    forall x, y ensures KeyLe(x, y) || KeyLe(y, x) { StringTotal(x.uid, y.uid); }
    forall x, y, z | KeyLe(x, y) && KeyLe(y, z) ensures KeyLe(x, z) {
      if StringLe(x.uid, y.uid) && StringLe(y.uid, z.uid) {
        StringTransitive(x.uid, y.uid, z.uid);
      }
    }
  }

  // ---------------------------------------------------------------- one bucket

  predicate SameMail(x: IndexedCode, y: IndexedCode) { x.uid == y.uid && x.folder == y.folder }

  function StoreIn(bucket: seq<IndexedCode>, entry: IndexedCode): seq<IndexedCode> {
    if exists item | item in bucket :: SameMail(item, entry) then bucket
    else Cut(Sort(KeyLe, bucket + [entry]), MAX_CODES_PER_ALIAS)
  }

  function Kept(bucket: seq<IndexedCode>, cutoff: real): seq<IndexedCode> {
    if bucket == [] then [] else
    (if bucket[0].receivedAt >= cutoff then [bucket[0]] else []) + Kept(bucket[1..], cutoff)
  }

  /** What happened to one recipient since the start, oldest first. */
  datatype Act = Stored(entry: IndexedCode) | Pruned(cutoff: real)

  function Perform(bucket: seq<IndexedCode>, act: Act): seq<IndexedCode> {
    match act
    case Stored(entry) => StoreIn(bucket, entry)
    case Pruned(cutoff) => Kept(bucket, cutoff)
  }

  function Bucket(acts: seq<Act>): seq<IndexedCode> {
    if acts == [] then [] else Perform(Bucket(acts[..|acts| - 1]), acts[|acts| - 1])
  }

  lemma BucketAfter(acts: seq<Act>, act: Act)
    ensures Bucket(acts + [act]) == Perform(Bucket(acts), act)
  {
    assert (acts + [act])[..|acts|] == acts;
  }

  /** Everything ingested for the recipient and not yet too old, without any bound. */
  function Retained(acts: seq<Act>): set<IndexedCode> {
    if acts == [] then {} else
    match acts[|acts| - 1]
    case Stored(entry) => Retained(acts[..|acts| - 1]) + {entry}
    case Pruned(cutoff) => set x | x in Retained(acts[..|acts| - 1]) && x.receivedAt >= cutoff
  }

  /** Folder and UID name one immutable mail (constant UID validity). */
  predicate Immutable(acts: seq<Act>) {
    forall i, j | 0 <= i < j < |acts| && acts[i].Stored? && acts[j].Stored? ::
      acts[i].entry.uid == acts[j].entry.uid && acts[i].entry.folder == acts[j].entry.folder ==>
        acts[i].entry == acts[j].entry
  }

  ghost predicate Identified(r: set<IndexedCode>) {
    forall x, y | x in r && y in r && SameMail(x, y) :: x == y
  }

  /** The bucket holds the greatest of the retained entries: sorted, without duplicates, all
      of them if there are fewer than five. */
  ghost predicate TopFive(bucket: seq<IndexedCode>, retained: set<IndexedCode>) {
    && Descending(KeyLe, bucket)
    && |bucket| <= MAX_CODES_PER_ALIAS
    && (forall i, j | 0 <= i < j < |bucket| :: bucket[i] != bucket[j])
    && (forall x | x in bucket :: x in retained)
    && (|bucket| < MAX_CODES_PER_ALIAS ==> forall x | x in retained :: x in bucket)
    && (forall x, y | x in retained && x !in bucket && y in bucket :: KeyLe(x, y))
  }

  lemma StoreKeepsTopFive(bucket: seq<IndexedCode>, retained: set<IndexedCode>, e: IndexedCode)
    requires TopFive(bucket, retained) && Identified(retained + {e})
    ensures TopFive(StoreIn(bucket, e), retained + {e})
  {
    if exists item | item in bucket :: SameMail(item, e) {
      assert e in bucket;
    } else {
      KeyTotal();
      SortAppend(KeyLe, bucket, e);
      InsertSorted(KeyLe, bucket, e);
      InsertFacts(bucket, e);
      CutKeepsTopFive(bucket, retained, e, Insert(KeyLe, bucket, e));
    }
  }

  lemma InsertFacts(bucket: seq<IndexedCode>, e: IndexedCode)
    requires e !in bucket && forall i, j | 0 <= i < j < |bucket| :: bucket[i] != bucket[j]
    ensures var r := Insert(KeyLe, bucket, e);
            && (forall x :: x in r <==> x in bucket || x == e)
            && (forall i, j | 0 <= i < j < |r| :: r[i] != r[j])
    decreases |bucket|
  {
    var r := Insert(KeyLe, bucket, e);
    forall x ensures x in r <==> x in bucket || x == e {
      assert x in multiset(r) <==> x in multiset(bucket) + multiset{e};
    }
    if bucket != [] && KeyLe(e, bucket[0]) {
      InsertFacts(bucket[1..], e);
      assert bucket[0] !in bucket[1..];
    }
  }

  lemma CutKeepsTopFive(bucket: seq<IndexedCode>, retained: set<IndexedCode>, e: IndexedCode, r: seq<IndexedCode>)
    requires TopFive(bucket, retained) && Total(KeyLe) && Descending(KeyLe, r) && |r| == |bucket| + 1
    requires forall x :: x in r <==> x in bucket || x == e
    requires forall i, j | 0 <= i < j < |r| :: r[i] != r[j]
    ensures TopFive(Cut(r, MAX_CODES_PER_ALIAS), retained + {e})
  {
    var cut := Cut(r, MAX_CODES_PER_ALIAS);
    if |r| > MAX_CODES_PER_ALIAS {
      var last := r[|r| - 1];
      assert forall x :: x in r <==> x in cut || x == last;
      forall x, y | x in retained + {e} && x !in cut && y in cut ensures KeyLe(x, y) {
        assert KeyLe(last, y);
        if x != last {
          assert x !in r && (y == e ==> last in bucket);
          assert KeyLe(x, y) || KeyLe(x, last);
        }
      }
    }
  }

  lemma {:induction false} KeptMembers(bucket: seq<IndexedCode>, cutoff: real)
    ensures var k := Kept(bucket, cutoff);
            && |k| <= |bucket|
            && (forall x :: x in k <==> x in bucket && x.receivedAt >= cutoff)
            && (k != bucket ==> exists y :: y in bucket && y.receivedAt < cutoff)
  {
    if bucket != [] {
      KeptMembers(bucket[1..], cutoff);
      assert bucket == [bucket[0]] + bucket[1..];
    }
  }

  lemma {:induction false} KeptOrder(bucket: seq<IndexedCode>, cutoff: real)
    requires Descending(KeyLe, bucket)
    requires forall i, j | 0 <= i < j < |bucket| :: bucket[i] != bucket[j]
    ensures Descending(KeyLe, Kept(bucket, cutoff))
    ensures forall i, j | 0 <= i < j < |Kept(bucket, cutoff)| :: Kept(bucket, cutoff)[i] != Kept(bucket, cutoff)[j]
  {
    if bucket != [] {
      var rest := Kept(bucket[1..], cutoff);
      KeptOrder(bucket[1..], cutoff);
      KeptMembers(bucket[1..], cutoff);
      forall j | 0 <= j < |rest| ensures KeyLe(rest[j], bucket[0]) && rest[j] != bucket[0] {
        assert rest[j] in bucket[1..];
      }
    }
  }

  lemma PruneKeepsTopFive(bucket: seq<IndexedCode>, retained: set<IndexedCode>, cutoff: real)
    requires TopFive(bucket, retained)
    ensures TopFive(Kept(bucket, cutoff), set x | x in retained && x.receivedAt >= cutoff)
  {
    KeptMembers(bucket, cutoff);
    KeptOrder(bucket, cutoff);
    var kept := Kept(bucket, cutoff);
    if kept != bucket {
      var y :| y in bucket && y.receivedAt < cutoff;
      forall x | x in retained && x !in bucket ensures x.receivedAt < cutoff {
        assert KeyLe(x, y);
      }
    }
  }

  lemma {:induction false} RetainedWasStored(acts: seq<Act>)
    ensures forall x | x in Retained(acts) :: exists i :: 0 <= i < |acts| && acts[i] == Stored(x)
  {
    if acts != [] {
      var init := acts[..|acts| - 1];
      RetainedWasStored(init);
      forall x | x in Retained(acts) ensures exists i :: 0 <= i < |acts| && acts[i] == Stored(x) {
        if x in Retained(init) {
          var i :| 0 <= i < |init| && init[i] == Stored(x);
          assert acts[i] == Stored(x);
        } else {
          assert acts[|acts| - 1] == Stored(x);
        }
      }
    }
  }

  lemma RetainedIdentified(acts: seq<Act>)
    requires Immutable(acts)
    ensures Identified(Retained(acts))
  {
    RetainedWasStored(acts);
    forall x, y | x in Retained(acts) && y in Retained(acts) && SameMail(x, y) ensures x == y {
      var i :| 0 <= i < |acts| && acts[i] == Stored(x);
      var j :| 0 <= j < |acts| && acts[j] == Stored(y);
      if j < i {
        assert SameMail(acts[j].entry, acts[i].entry);
      }
    }
  }

  /** Bounded memory forgets nothing that matters: after any sequence of stores and prunes the
      bucket is the top five of the whole retained history. */
  lemma {:induction false} BucketIsTopFive(acts: seq<Act>)
    requires Immutable(acts)
    ensures TopFive(Bucket(acts), Retained(acts))
  {
    if acts != [] {
      var init := acts[..|acts| - 1];
      BucketIsTopFive(init);
      match acts[|acts| - 1]
      case Pruned(cutoff) => PruneKeepsTopFive(Bucket(init), Retained(init), cutoff);
      case Stored(e) =>
        RetainedIdentified(acts);
        StoreKeepsTopFive(Bucket(init), Retained(init), e);
    }
  }

  // ---------------------------------------------------------------- answering

  /** The strict comparison of `latest`: an equal key does not replace the one found first. */
  function Best(entries: seq<IndexedCode>, asked: IndexedCode -> bool): Option<IndexedCode> {
    if entries == [] then None else
    var best := Best(entries[..|entries| - 1], asked);
    var entry := entries[|entries| - 1];
    if asked(entry) && (best.None? || !KeyLe(entry, best.value)) then Some(entry) else best
  }

  /** The tests of `latest`. */
  function Asked(oldest: real, newest: real, sender: string -> bool): IndexedCode -> bool {
    (e: IndexedCode) => oldest <= e.receivedAt <= newest && sender(e.fromHeader)
  }

  /** What the answer means: it lies in the window and passes the sender test, and of everything in
      the bucket that does, nothing is younger and nothing of the same moment has a greater UID. */
  lemma BestIsAsked(entries: seq<IndexedCode>, oldest: real, newest: real, sender: string -> bool)
    ensures var best := Best(entries, Asked(oldest, newest, sender));
            && (best.Some? ==>
                  && best.value in entries && oldest <= best.value.receivedAt <= newest
                  && sender(best.value.fromHeader))
            && (forall e | e in entries && oldest <= e.receivedAt <= newest && sender(e.fromHeader) ::
                  best.Some? && NoYounger(e, best.value))
  {
    var asked := Asked(oldest, newest, sender);
    var best := Best(entries, asked);
    BestAnswers(entries, asked);
    forall e | e in entries && oldest <= e.receivedAt <= newest && sender(e.fromHeader)
      ensures best.Some? && NoYounger(e, best.value)
    {
      assert asked(e);
      assert KeyLe(e, best.value);
    }
  }

  predicate NoYounger(e: IndexedCode, best: IndexedCode) {
    || e.receivedAt < best.receivedAt
    || (e.receivedAt == best.receivedAt && UidNumber(e.uid) < UidNumber(best.uid))
    || (e.receivedAt == best.receivedAt && UidNumber(e.uid) == UidNumber(best.uid) && StringLe(e.uid, best.uid))
  }

  /** At least a second back, and ahead by the skew if it is positive. */
  predicate InWindow(time: real, now: real, maxAge: int, skew: int) {
    && now - (if maxAge < 1 then 1 else maxAge) as real <= time
    && time <= now + (if skew < 0 then 0 else skew) as real
  }

  lemma AskedIs(now: real, maxAge: int, skew: int, sender: string -> bool)
    ensures var asked := Asked(now - AtLeast(1, maxAge) as real, now + AtLeast(0, skew) as real, sender);
            forall e :: asked(e) <==> InWindow(e.receivedAt, now, maxAge, skew) && sender(e.fromHeader)
  {}

  function AtLeast(least: int, n: int): int { if n < least then least else n }

  lemma BestStep(entries: seq<IndexedCode>, i: nat, asked: IndexedCode -> bool)
    requires i < |entries|
    ensures var best := Best(entries[..i], asked);
            Best(entries[..i + 1], asked)
            == if asked(entries[i]) && (best.None? || !KeyLe(entries[i], best.value)) then Some(entries[i]) else best
  {
    assert entries[..i + 1][..i] == entries[..i];
  }

  /** `answer` is what a scan of `from` would return, up to entries with equal keys. */
  ghost predicate Answers(answer: Option<IndexedCode>, from: set<IndexedCode>, asked: IndexedCode -> bool) {
    match answer
    case None => forall x | x in from :: !asked(x)
    case Some(t) => t in from && asked(t) && forall x | x in from && asked(x) :: KeyLe(x, t)
  }

  lemma {:induction false} BestAnswers(entries: seq<IndexedCode>, asked: IndexedCode -> bool)
    ensures Answers(Best(entries, asked), (set x | x in entries), asked)
  {
    if entries != [] {
      var init, last := entries[..|entries| - 1], entries[|entries| - 1];
      BestAnswers(init, asked);
      assert entries == init + [last];
      assert (set x | x in entries) == (set x | x in init) + {last};
      OneMoreEntry(Best(init, asked), (set x | x in init), asked, last);
    }
  }

  lemma OneMoreEntry(best: Option<IndexedCode>, from: set<IndexedCode>, asked: IndexedCode -> bool, last: IndexedCode)
    requires Answers(best, from, asked)
    ensures var next := if asked(last) && (best.None? || !KeyLe(last, best.value)) then Some(last) else best;
            Answers(next, from + {last}, asked)
  {
    KeyTotal();
  }

  /** The entries that rank at or above t. */
  function Rivals(t: IndexedCode, retained: set<IndexedCode>): set<IndexedCode> {
    set x | x in retained && x != t && KeyLe(t, x)
  }

  lemma {:induction false} DistinctCount(s: seq<IndexedCode>)
    requires forall i, j | 0 <= i < j < |s| :: s[i] != s[j]
    ensures |set x | x in s| == |s|
  {
    if s != [] {
      DistinctCount(s[1..]);
      assert (set x | x in s) == {s[0]} + (set x | x in s[1..]);
    }
  }

  lemma NotCrowdedOut(bucket: seq<IndexedCode>, retained: set<IndexedCode>, t: IndexedCode)
    requires TopFive(bucket, retained) && t in retained && |Rivals(t, retained)| < MAX_CODES_PER_ALIAS
    ensures t in bucket
  {
    if t !in bucket {
      var inBucket := set x | x in bucket;
      DistinctCount(bucket);
      SmallerSet(inBucket, Rivals(t, retained));
    }
  }

  /** A full scan finds t.  The bounded index gives the same answer whenever fewer than five
      other retained entries rank at or above t. */
  lemma LatestAgreesWithScan(bucket: seq<IndexedCode>, retained: set<IndexedCode>,
                             asked: IndexedCode -> bool, t: IndexedCode)
    requires TopFive(bucket, retained) && Answers(Some(t), retained, asked)
    requires |Rivals(t, retained)| < MAX_CODES_PER_ALIAS
    ensures Best(bucket, asked).Some? && Answers(Best(bucket, asked), retained, asked)
  {
    NotCrowdedOut(bucket, retained, t);
    BestAnswers(bucket, asked);
    KeyTotal();
  }

  /** The entries whose key is above that of t. */
  function Outranking(t: IndexedCode, retained: set<IndexedCode>): set<IndexedCode> {
    set x | x in retained && !KeyLe(x, t)
  }

  /** No other entry has the key of t: it arrived at the same time under the same UID. */
  ghost predicate OwnKey(t: IndexedCode, retained: set<IndexedCode>) {
    forall x | x in retained && KeyLe(t, x) && KeyLe(x, t) :: x == t
  }

  lemma {:induction false} DropOne(a: set<IndexedCode>, bucket: seq<IndexedCode>, b: IndexedCode)
    requires b in bucket && b !in a && forall x | x in a :: x in bucket
    requires forall i, j | 0 <= i < j < |bucket| :: bucket[i] != bucket[j]
    ensures |a| < |bucket|
  {
    var all := set x | x in bucket;
    DistinctCount(bucket);
    SmallerSet(a + {b}, all);
  }

  /** When five entries outrank the answer, the index does not have it. */
  lemma CrowdedOut(bucket: seq<IndexedCode>, retained: set<IndexedCode>, asked: IndexedCode -> bool, t: IndexedCode)
    requires TopFive(bucket, retained) && Answers(Some(t), retained, asked)
    requires |Outranking(t, retained)| >= MAX_CODES_PER_ALIAS
    ensures !Answers(Best(bucket, asked), retained, asked)
  {
    var best := Best(bucket, asked);
    if Answers(best, retained, asked) {
      assert best.Some?;
      BestAnswers(bucket, asked);
      KeyTotal();
      DropOne(Outranking(t, retained), bucket, best.value);
    }
  }

  /** When the index agrees with a scan: for an answer t with a key of its own, exactly if fewer
      than five other entries rank at or above it; entries with its very key leave a gap between
      the two bounds, and if the scan finds nothing neither does the index. */
  lemma LatestAgreesIff(bucket: seq<IndexedCode>, retained: set<IndexedCode>, asked: IndexedCode -> bool,
                        t: IndexedCode)
    requires TopFive(bucket, retained)
    ensures Answers(None, retained, asked) ==> Best(bucket, asked) == None
    ensures Answers(Some(t), retained, asked) ==>
              && (|Rivals(t, retained)| < MAX_CODES_PER_ALIAS ==> Answers(Best(bucket, asked), retained, asked))
              && (|Outranking(t, retained)| >= MAX_CODES_PER_ALIAS ==> !Answers(Best(bucket, asked), retained, asked))
    ensures Answers(Some(t), retained, asked) && OwnKey(t, retained) ==>
              (Best(bucket, asked) == Some(t) <==> |Rivals(t, retained)| < MAX_CODES_PER_ALIAS)
  {
    BestAnswers(bucket, asked);
    if Answers(Some(t), retained, asked) {
      if |Rivals(t, retained)| < MAX_CODES_PER_ALIAS {
        LatestAgreesWithScan(bucket, retained, asked, t);
      }
      if |Outranking(t, retained)| >= MAX_CODES_PER_ALIAS {
        CrowdedOut(bucket, retained, asked, t);
      }
      if OwnKey(t, retained) {
        RivalsOutrank(t, retained);
      }
    }
  }

  lemma RivalsOutrank(t: IndexedCode, retained: set<IndexedCode>)
    requires OwnKey(t, retained)
    ensures Rivals(t, retained) == Outranking(t, retained)
  {
    KeyTotal();
  }

  lemma {:induction false} RetainedStores(entries: seq<IndexedCode>)
    ensures Retained(Stores(entries)) == set x | x in entries
  {
    if entries != [] {
      var init, last := entries[..|entries| - 1], entries[|entries| - 1];
      RetainedStores(init);
      assert Stores(entries)[..|entries| - 1] == Stores(init);
      assert entries == init + [last];
    }
  }

  function Stores(entries: seq<IndexedCode>): seq<Act> {
    seq(|entries|, i requires 0 <= i < |entries| => Stored(entries[i]))
  }

  /** Of different mails t is the oldest and the only one asked for. */
  ghost predicate OldestIsAsked(t: IndexedCode, rest: seq<IndexedCode>, asked: IndexedCode -> bool) {
    && asked(t)
    && (forall i | 0 <= i < |rest| :: !asked(rest[i]) && t.receivedAt < rest[i].receivedAt && rest[i].uid != t.uid)
    && (forall i, j | 0 <= i < j < |rest| :: rest[i].uid != rest[j].uid)
  }

  lemma LaterOutrank(t: IndexedCode, rest: seq<IndexedCode>, asked: IndexedCode -> bool, retained: set<IndexedCode>)
    requires OldestIsAsked(t, rest, asked) && retained == {t} + set x | x in rest
    ensures Outranking(t, retained) == set x | x in rest
    ensures Answers(Some(t), retained, asked) && forall x | x in retained && asked(x) :: x == t
  {
    KeyTotal();
  }

  /** With five or more newer mails the index misses the code that a scan of the retained mail
      finds. */
  lemma OldestIsHidden(t: IndexedCode, rest: seq<IndexedCode>, asked: IndexedCode -> bool)
    requires OldestIsAsked(t, rest, asked) && |rest| >= MAX_CODES_PER_ALIAS
    ensures Immutable(Stores([t] + rest))
    ensures Answers(Some(t), Retained(Stores([t] + rest)), asked) && Best(Bucket(Stores([t] + rest)), asked) == None
  {
    var acts := Stores([t] + rest);
    RetainedStores([t] + rest);
    assert Retained(acts) == {t} + set x | x in rest;
    BucketIsTopFive(acts);
    OutOfTheBucket(Bucket(acts), t, rest, asked);
  }

  lemma OutOfTheBucket(bucket: seq<IndexedCode>, t: IndexedCode, rest: seq<IndexedCode>, asked: IndexedCode -> bool)
    requires OldestIsAsked(t, rest, asked) && |rest| >= MAX_CODES_PER_ALIAS
    requires TopFive(bucket, {t} + set x | x in rest)
    ensures Answers(Some(t), {t} + (set x | x in rest), asked) && Best(bucket, asked) == None
  {
    var retained := {t} + set x | x in rest;
    LaterOutrank(t, rest, asked, retained);
    DistinctCount(rest);
    CrowdedOut(bucket, retained, asked, t);
    OnlyThis(bucket, retained, asked, t);
  }

  /** A code for one alias. */
  function Coded(time: real, uid: string, sender: string): IndexedCode { IndexedCode("", time, uid, "INBOX", sender) }

  /** Six codes a second apart, only the first from the sender asked for. */
  lemma IndexMisses() returns (t: IndexedCode, rest: seq<IndexedCode>, asked: IndexedCode -> bool)
    ensures |rest| == 5 && t == Coded(0.0, "1", "wanted") && asked(t)
    ensures Answers(Some(t), Retained(Stores([t] + rest)), asked) && Best(Bucket(Stores([t] + rest)), asked) == None
  {
    t := Coded(0.0, "1", "wanted");
    rest := [Coded(1.0, "2", "other"), Coded(2.0, "3", "other"), Coded(3.0, "4", "other"),
             Coded(4.0, "5", "other"), Coded(5.0, "6", "other")];
    asked := (e: IndexedCode) => e.fromHeader == "wanted";
    OldestIsHidden(t, rest, asked);
  }

  lemma OnlyThis(bucket: seq<IndexedCode>, retained: set<IndexedCode>, asked: IndexedCode -> bool, t: IndexedCode)
    requires TopFive(bucket, retained) && Answers(Some(t), retained, asked)
    requires forall x | x in retained && asked(x) :: x == t
    requires !Answers(Best(bucket, asked), retained, asked)
    ensures Best(bucket, asked) == None
  {
    BestAnswers(bucket, asked);
  }

  // ---------------------------------------------------------------- the watcher

  type Index = map<string, seq<IndexedCode>>
  type History = map<string, seq<Act>>

  function Look<T>(m: map<string, seq<T>>, r: string): seq<T> { if r in m then m[r] else [] }

  lemma LookUpdated<T>(m: map<string, seq<T>>, r: string, s: seq<T>)
    ensures Look(m[r := s], r) == s && forall q: string | q != r :: Look(m[r := s], q) == Look(m, q)
  {}

  /** Each bucket is the outcome of everything that happened to its recipient. */
  ghost predicate Agrees(index: Index, history: History) {
    forall r: string :: Bucket(Look(history, r)) == Look(index, r)
  }

  lemma AgreesAfter(index: Index, history: History, r: string, act: Act, index': Index)
    requires Agrees(index, history)
    requires Look(index', r) == Perform(Look(index, r), act)
    requires forall q: string | q != r :: Look(index', q) == Look(index, q)
    ensures Agrees(index', history[r := Look(history, r) + [act]])
  {
    BucketAfter(Look(history, r), act);
  }

  /** The act was performed for the recipients in `done` and for nobody else. */
  ghost predicate Performed(was: Index, now: Index, done: set<string>, act: Act) {
    forall r: string :: Look(now, r) == if r in done then Perform(Look(was, r), act) else Look(was, r)
  }

  ghost predicate Noted(was: History, now: History, done: set<string>, act: Act) {
    forall r: string :: Look(now, r) == if r in done then Look(was, r) + [act] else Look(was, r)
  }

  lemma PerformedStep(was: Index, now: Index, done: set<string>, act: Act, r: string, now': Index)
    requires Performed(was, now, done, act) && r !in done
    requires Look(now', r) == Perform(Look(now, r), act)
    requires forall q: string | q != r :: Look(now', q) == Look(now, q)
    ensures Performed(was, now', done + {r}, act)
  {
    forall q: string
      ensures Look(now', q) == if q in done + {r} then Perform(Look(was, q), act) else Look(was, q)
    {
      if q == r {
        assert Look(now, r) == Look(was, r) && r in done + {r};
      } else {
        assert Look(now', q) == Look(now, q) && (q in done + {r} <==> q in done);
      }
    }
  }

  lemma NotedStep(was: History, now: History, done: set<string>, act: Act, r: string)
    requires Noted(was, now, done, act) && r !in done
    ensures Noted(was, now[r := Look(now, r) + [act]], done + {r}, act)
  {}

  /** The index while _prune is at work: done with the recipients in `done`. */
  function PartlyPruned(was: Index, done: set<string>, cutoff: real): Index {
    map r | r in was && (r in done ==> Kept(was[r], cutoff) != []) :: if r in done then Kept(was[r], cutoff) else was[r]
  }

  lemma PartlyPrunedPerforms(was: Index, done: set<string>, cutoff: real)
    requires done <= was.Keys
    ensures Performed(was, PartlyPruned(was, done, cutoff), done, Pruned(cutoff))
  {}

  lemma PartlyPrunedStep(was: Index, done: set<string>, cutoff: real, r: string)
    requires r in was && r !in done
    ensures var now := PartlyPruned(was, done, cutoff);
            && r in now
            && var kept := Kept(now[r], cutoff);
            PartlyPruned(was, done + {r}, cutoff) == if kept != [] then now[r := kept] else now - {r}
  {}

  ghost function NoteAll(was: History, done: set<string>, act: Act): (now: History)
    ensures Noted(was, now, done, act)
  {
    map r | r in was.Keys + done :: if r in done then Look(was, r) + [act] else was[r]
  }

  lemma AgreesAfterAll(was: Index, wasHistory: History, done: set<string>, act: Act, now: Index)
    requires Agrees(was, wasHistory) && Performed(was, now, done, act)
    ensures Agrees(now, NoteAll(wasHistory, done, act))
  {
    var history := NoteAll(wasHistory, done, act);
    forall r: string ensures Bucket(Look(history, r)) == Look(now, r) {
      assert Bucket(Look(wasHistory, r)) == Look(was, r);
      BucketAfter(Look(wasHistory, r), act);
    }
  }

  class MailboxWatcher {
    var index: Index
    const retention: real
    /** Everything that ever happened, per recipient. */
    ghost var history: History

    ghost predicate Valid()
      reads this
    {
      Agrees(index, history)
    }

    constructor (retention: real)
      ensures Valid() && index == map[] && history == map[]
    {
      this.retention, index, history := retention, map[], map[];
    }

    lemma SomeLeft(all: set<string>, done: set<string>)
      requires done <= all && done != all
      ensures exists r :: r in all && r !in done
    {}

    /** _store */
    method Store(recipients: set<string>, entry: IndexedCode) returns (added: bool)
      requires Valid()
      modifies this
      ensures Valid()
      ensures Performed(old(index), index, recipients, Stored(entry))
      ensures Noted(old(history), history, recipients, Stored(entry))
      ensures added <==>
              exists r | r in recipients :: forall item | item in Look(old(index), r) ::
                                              item.uid != entry.uid || item.folder != entry.folder
    {
      added := false;
      var done: set<string> := {};
      while done != recipients
        invariant done <= recipients && Valid()
        invariant Performed(old(index), index, done, Stored(entry))
        invariant Noted(old(history), history, done, Stored(entry))
        invariant added <==> exists r | r in done :: forall item | item in Look(old(index), r) :: !SameMail(item, entry)
        decreases recipients - done
      {
        SomeLeft(recipients, done);
        var recipient :| recipient in recipients && recipient !in done;
        var one := StoreOne(recipient, entry, old(index), old(history), done, Stored(entry));
        added := added || one;
        done := done + {recipient};
      }
    }

    /** The body of the loop in _store. */
    method StoreOne(recipient: string, entry: IndexedCode, ghost was: Index, ghost wasHistory: History,
                    ghost done: set<string>, ghost act: Act)
      returns (added: bool)
      requires Valid() && recipient !in done && act == Stored(entry)
      requires Performed(was, index, done, act) && Noted(wasHistory, history, done, act)
      modifies this
      ensures Valid()
      ensures Performed(was, index, done + {recipient}, act)
      ensures Noted(wasHistory, history, done + {recipient}, act)
      ensures added <==> forall item | item in Look(was, recipient) :: !SameMail(item, entry)
    {
      var bucket := Look(index, recipient);
      added := forall item | item in bucket :: !SameMail(item, entry);
      index := index[recipient := StoreIn(bucket, entry)];
      assert StoreIn(bucket, entry) == Perform(bucket, act);
      LookUpdated(old(index), recipient, Perform(bucket, act));
      PerformedStep(was, old(index), done, act, recipient, index);
      AgreesAfter(old(index), history, recipient, act, index);
      NotedStep(wasHistory, history, done, act, recipient);
      history := history[recipient := Look(history, recipient) + [act]];
    }

    /** _prune with the cutoff the clock gives; empty buckets are dropped. */
    method Prune(now: real, ghost act: Act)
      requires Valid() && act == Pruned(now - retention)
      modifies this
      ensures Valid()
      ensures Performed(old(index), index, old(index).Keys, act)
      ensures Noted(old(history), history, old(index).Keys, act)
      ensures forall r | r in index :: index[r] != []
    {
      DropOlder(now - retention, act);
      history := NoteAll(history, old(index).Keys, act);
      AgreesAfterAll(old(index), old(history), old(index).Keys, act, index);
    }

    /** The loop of _prune. */
    method DropOlder(cutoff: real, ghost act: Act)
      requires act == Pruned(cutoff)
      modifies this`index
      ensures Performed(old(index), index, old(index).Keys, act)
      ensures forall r | r in index :: index[r] != []
    {
      var recipients := index.Keys;
      ghost var was := index;
      ghost var done: set<string> := {};
      while recipients != {}
        invariant done + recipients == was.Keys && done !! recipients
        invariant index == PartlyPruned(was, done, cutoff)
        decreases recipients
      {
        var recipient :| recipient in recipients;
        PartlyPrunedStep(was, done, cutoff, recipient);
        var kept := Kept(index[recipient], cutoff);
        index := if kept != [] then index[recipient := kept] else index - {recipient};
        recipients, done := recipients - {recipient}, done + {recipient};
      }
      assert done == was.Keys;
      PartlyPrunedPerforms(was, done, cutoff);
    }

    /** latest.  The answer is in the bucket, in the window and from the right sender, and nothing
        of that kind is younger; None means that there is nothing of that kind. */
    method Latest(target: string, now: real, maxAge: int, skew: int, sender: string -> bool)
      returns (best: Option<IndexedCode>)
      requires Valid()
      ensures best == Answer(target, now, maxAge, skew, sender)
      ensures best.Some? ==>
                && target != "" && target in index && best.value in index[target]
                && InWindow(best.value.receivedAt, now, maxAge, skew) && sender(best.value.fromHeader)
      ensures target != "" && target in index ==>
                forall e | e in index[target] && InWindow(e.receivedAt, now, maxAge, skew) && sender(e.fromHeader) ::
                  best.Some? && NoYounger(e, best.value)
    {
      if target == "" {
        return None;
      }
      var oldest, newest := now - AtLeast(1, maxAge) as real, now + AtLeast(0, skew) as real;
      BestIsAsked(Look(index, target), oldest, newest, sender);
      best := Pick(Look(index, target), oldest, newest, sender);
    }

    /** Its loop: the window test, then sender filter and policy as one test on the header. */
    method Pick(entries: seq<IndexedCode>, oldest: real, newest: real, sender: string -> bool)
      returns (best: Option<IndexedCode>)
      ensures best == Best(entries, Asked(oldest, newest, sender))
    {
      best := None;
      for i := 0 to |entries|
        invariant best == Best(entries[..i], Asked(oldest, newest, sender))
      {
        var entry := entries[i];
        BestStep(entries, i, Asked(oldest, newest, sender));
        if entry.receivedAt < oldest || entry.receivedAt > newest {
          continue;
        }
        if !sender(entry.fromHeader) {
          continue;
        }
        if best.None? || !KeyLe(entry, best.value) {
          best := Some(entry);
        }
      }
      assert entries[..|entries|] == entries;
    }

    function Answer(target: string, now: real, maxAge: int, skew: int, sender: string -> bool): Option<IndexedCode>
      reads this`index
    {
      if target == "" then None else
      Best(Look(index, target), Asked(now - AtLeast(1, maxAge) as real, now + AtLeast(0, skew) as real, sender))
    }

    /** Asked for any code of the window and sender, the watcher answers as a scan of everything it
        ingested and has not pruned would, if fewer than five other entries rank at or above it. */
    lemma AnswerIsTheScan(target: string, now: real, maxAge: int, skew: int, sender: string -> bool, t: IndexedCode)
      requires Valid() && target != "" && Immutable(Look(history, target))
      requires var retained := Retained(Look(history, target));
               && t in retained && InWindow(t.receivedAt, now, maxAge, skew) && sender(t.fromHeader)
               && |Rivals(t, retained)| < MAX_CODES_PER_ALIAS
               && forall x | x in retained && InWindow(x.receivedAt, now, maxAge, skew) && sender(x.fromHeader) ::
                    KeyLe(x, t)
      ensures var best := Answer(target, now, maxAge, skew, sender);
              && best.Some? && best.value in Retained(Look(history, target))
              && InWindow(best.value.receivedAt, now, maxAge, skew) && sender(best.value.fromHeader)
              && KeyLe(t, best.value) && KeyLe(best.value, t)
    {
      var asked := Asked(now - AtLeast(1, maxAge) as real, now + AtLeast(0, skew) as real, sender);
      AskedIs(now, maxAge, skew, sender);
      BestIsTheScan(target, asked, t);
    }

    lemma BestIsTheScan(target: string, asked: IndexedCode -> bool, t: IndexedCode)
      requires Valid() && Immutable(Look(history, target))
      requires var retained := Retained(Look(history, target));
               && t in retained && asked(t) && |Rivals(t, retained)| < MAX_CODES_PER_ALIAS
               && forall x | x in retained && asked(x) :: KeyLe(x, t)
      ensures var best := Best(Look(index, target), asked);
              && best.Some? && best.value in Retained(Look(history, target)) && asked(best.value)
              && KeyLe(t, best.value) && KeyLe(best.value, t)
    {
      assert Answers(Some(t), Retained(Look(history, target)), asked);
      AnswersLikeScan(target, asked, t);
    }

    /** Every bucket of a watcher is the top five of what it ingested for that recipient. */
    lemma BucketsAreTopFive(recipient: string)
      requires Valid() && Immutable(Look(history, recipient))
      ensures TopFive(Look(index, recipient), Retained(Look(history, recipient)))
    {
      BucketIsTopFive(Look(history, recipient));
    }

    /** So what `latest` finds in the bucket is what a scan of everything ingested and not yet
        too old would find, unless five or more entries outrank it. */
    lemma AnswersLikeScan(recipient: string, asked: IndexedCode -> bool, t: IndexedCode)
      requires Valid() && Immutable(Look(history, recipient))
      requires Answers(Some(t), Retained(Look(history, recipient)), asked)
      requires |Rivals(t, Retained(Look(history, recipient)))| < MAX_CODES_PER_ALIAS
      ensures Answers(Best(Look(index, recipient), asked), Retained(Look(history, recipient)), asked)
      ensures Best(Look(index, recipient), asked).Some?
    {
      BucketsAreTopFive(recipient);
      LatestAgreesWithScan(Look(index, recipient), Retained(Look(history, recipient)), asked, t);
    }
  }
}
