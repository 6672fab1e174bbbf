/** Paging through the mail archive by key (MessageRepository.listAll and MessageService.listAll)
    while rows arrive, expire and are deleted between the pages. */
module MessagePages {
  import opened Ordering
  import opened MessageStore

  /** The sort key, which is also the cursor. */
  datatype Place = Place(receivedAt: int, createdAt: int, id: string)

  datatype Cursor = Start | Before(place: Place)

  /** The tables at the time of one request. */
  datatype Moment = Moment(rows: seq<Row>, aliases: map<string, bool>, now: int)

  datatype Page = Page(rows: seq<Row>, hasMore: bool)

  function PlaceOf(r: Row): Place { Place(r.receivedAt, r.createdAt, r.id) }

  predicate PlaceLe(a: Place, b: Place) {
    || a.receivedAt < b.receivedAt
    || (a.receivedAt == b.receivedAt && a.createdAt < b.createdAt)
    || (a.receivedAt == b.receivedAt && a.createdAt == b.createdAt && StringLe(a.id, b.id))
  }

  predicate PlaceLt(a: Place, b: Place) { PlaceLe(a, b) && a != b }

  predicate RowLe(x: Row, y: Row) { PlaceLe(PlaceOf(x), PlaceOf(y)) }

  predicate Below(r: Row, cursor: Cursor) { cursor.Start? || PlaceLt(PlaceOf(r), cursor.place) }

  /** The WHERE clause without the cursor. */
  predicate Visible(r: Row, m: Moment) { r in m.rows && r.alias in m.aliases && (r.permanent || r.expiresAt > m.now) }

  function Asked(m: Moment, cursor: Cursor): Row -> bool { (r: Row) => Visible(r, m) && Below(r, cursor) }

  /** The answer of the query before LIMIT. */
  function Found(m: Moment, cursor: Cursor): seq<Row> { Sort(RowLe, Kept(m.rows, Asked(m, cursor))) }

  /** MessageRepository.listAll */
  function ListAll(m: Moment, limit: nat, cursor: Cursor): Page {
    var found := Cut(Found(m, cursor), limit + 1);
    Page(Cut(found, limit), |found| > limit)
  }

  /** nextCursor of MessageService.listAll; no cursor ends the reading. */
  function Next(page: Page): Cursor {
    if page.hasMore && page.rows != [] then Before(PlaceOf(page.rows[|page.rows| - 1])) else Start
  }

  /** A reader who follows the cursors, one moment per request: what it has read and whether it
      came to the end. */
  function Read(moments: seq<Moment>, limit: nat, cursor: Cursor): (seq<Row>, bool) {
    if moments == [] then ([], false) else
    var page := ListAll(moments[0], limit, cursor);
    if Next(page).Start? then (page.rows, true) else
    var (more, ended) := Read(moments[1..], limit, Next(page));
    (page.rows + more, ended)
  }

  // ---------------------------------------------------------------- one page

  lemma PlaceTotal()
    ensures Total(PlaceLe) && Total(RowLe)
  {
    forall x, y ensures PlaceLe(x, y) || PlaceLe(y, x) { StringTotal(x.id, y.id); }
    forall x, y, z | PlaceLe(x, y) && PlaceLe(y, z) ensures PlaceLe(x, z) {
      if StringLe(x.id, y.id) && StringLe(y.id, z.id) {
        StringTransitive(x.id, y.id, z.id);
      }
    }
  }

  lemma PlaceStrict(a: Place, b: Place, c: Place)
    ensures PlaceLt(a, b) && PlaceLe(b, c) ==> PlaceLt(a, c)
    ensures PlaceLe(a, b) && PlaceLt(b, c) ==> PlaceLt(a, c)
    ensures PlaceLt(a, b) || a == b || PlaceLt(b, a)
    ensures !(PlaceLt(a, b) && PlaceLe(b, a))
  {
    PlaceTotal();
    if PlaceLe(a, b) && PlaceLe(b, a) {
      StringAntisymmetric(a.id, b.id);
    }
    if PlaceLe(b, c) && PlaceLe(c, b) {
      StringAntisymmetric(b.id, c.id);
    }
  }

  /** Strictly descending: in particular nothing twice. */
  ghost predicate Falling(s: seq<Row>) { forall i, j | 0 <= i < j < |s| :: PlaceLt(PlaceOf(s[j]), PlaceOf(s[i])) }

  /** Rows with different identifiers. */
  ghost predicate Distinct(s: seq<Row>) { forall i, j | 0 <= i < j < |s| :: s[i].id != s[j].id }

  lemma {:induction false} KeptDistinct(rows: seq<Row>, keep: Row -> bool)
    requires Distinct(rows)
    ensures Distinct(Kept(rows, keep))
  {
    if rows != [] {
      var init := rows[..|rows| - 1];
      KeptDistinct(init, keep);
      forall i | 0 <= i < |Kept(init, keep)| ensures Kept(init, keep)[i].id != rows[|rows| - 1].id {
        assert Kept(init, keep)[i] in init;
      }
    }
  }

  lemma {:induction false} SortDistinct(s: seq<Row>)
    requires Distinct(s)
    ensures Distinct(Sort(RowLe, s))
  {
    if s != [] {
      SortDistinct(s[..|s| - 1]);
      var init := Sort(RowLe, s[..|s| - 1]);
      forall i | 0 <= i < |init| ensures init[i].id != s[|s| - 1].id {
        assert init[i] in multiset(init);
        assert init[i] in s[..|s| - 1];
      }
      InsertDistinct(init, s[|s| - 1]);
    }
  }

  lemma {:induction false} InsertDistinct(s: seq<Row>, r: Row)
    requires Distinct(s) && forall i | 0 <= i < |s| :: s[i].id != r.id
    ensures Distinct(Insert(RowLe, s, r))
  {
    if s != [] && RowLe(r, s[0]) {
      InsertDistinct(s[1..], r);
      var rest := Insert(RowLe, s[1..], r);
      forall i | 0 <= i < |rest| ensures rest[i].id != s[0].id {
        assert rest[i] in multiset(rest);
        assert rest[i] == r || rest[i] in s[1..];
      }
    }
  }

  /** What one page is: the greatest visible rows below the cursor, falling, all of them unless
      there is more. */
  ghost predicate IsPage(page: Page, m: Moment, limit: nat, cursor: Cursor) {
    && Falling(page.rows) && |page.rows| <= limit
    && (forall r | r in page.rows :: Visible(r, m) && Below(r, cursor))
    && (forall r | Visible(r, m) && Below(r, cursor) && r !in page.rows ::
          page.hasMore && forall q | q in page.rows :: PlaceLt(PlaceOf(r), PlaceOf(q)))
    && (page.hasMore ==> |page.rows| == limit)
  }

  lemma FoundIs(m: Moment, cursor: Cursor)
    requires Distinct(m.rows)
    ensures Falling(Found(m, cursor))
    ensures forall r :: r in Found(m, cursor) <==> Visible(r, m) && Below(r, cursor)
  {
    var kept := Kept(m.rows, Asked(m, cursor));
    PlaceTotal();
    KeptDistinct(m.rows, Asked(m, cursor));
    SortDistinct(kept);
    SortSorted(RowLe, kept);
    FallingFrom(Found(m, cursor));
    forall r ensures r in Found(m, cursor) <==> Visible(r, m) && Below(r, cursor) {
      assert r in kept <==> r in m.rows && Asked(m, cursor)(r);
      assert r in multiset(Found(m, cursor)) <==> r in multiset(kept);
    }
  }

  lemma FallingFrom(s: seq<Row>)
    requires Distinct(s) && Descending(RowLe, s)
    ensures Falling(s)
  {}

  lemma CutIs(all: seq<Row>, limit: nat, cut: seq<Row>)
    requires Falling(all) && cut == Cut(Cut(all, limit + 1), limit)
    ensures Falling(cut) && |cut| <= limit && cut <= all
    ensures forall r, q | r in all && r !in cut && q in cut :: PlaceLt(PlaceOf(r), PlaceOf(q))
    ensures |Cut(all, limit + 1)| > limit <==> cut != all
    ensures cut != all ==> |cut| == limit
  {}

  lemma PageIs(m: Moment, limit: nat, cursor: Cursor)
    requires Distinct(m.rows)
    ensures IsPage(ListAll(m, limit, cursor), m, limit, cursor)
  {
    FoundIs(m, cursor);
    CutIs(Found(m, cursor), limit, ListAll(m, limit, cursor).rows);
  }

  /** Received later, or then created later, or then with the greater identifier. */
  predicate Newer(a: Row, b: Row) {
    || a.receivedAt > b.receivedAt
    || (a.receivedAt == b.receivedAt && a.createdAt > b.createdAt)
    || (a.receivedAt == b.receivedAt && a.createdAt == b.createdAt && a.id != b.id && StringLe(b.id, a.id))
  }

  /** A row of the table whose alias is known and that has not expired. */
  predicate Alive(r: Row, m: Moment) {
    r in m.rows && r.alias in m.aliases && (r.permanent || m.now < r.expiresAt)
  }

  lemma NewerIs(a: Row, b: Row)
    ensures PlaceLt(PlaceOf(b), PlaceOf(a)) <==> Newer(a, b)
  {
    StringTotal(a.id, b.id);
    if StringLe(a.id, b.id) && StringLe(b.id, a.id) {
      StringAntisymmetric(a.id, b.id);
    }
  }

  /** What a page after the row `last` is, without cursors and places: alive rows older than
      `last`, newest first, none skipped, and `hasMore` says whether there are others. */
  lemma PageMeans(m: Moment, limit: nat, last: Row)
    requires Distinct(m.rows)
    ensures var page := ListAll(m, limit, Before(PlaceOf(last)));
            && (forall i, j | 0 <= i < j < |page.rows| :: Newer(page.rows[i], page.rows[j]))
            && (forall r | r in page.rows :: Alive(r, m) && Newer(last, r))
            && (forall r, q | Alive(r, m) && Newer(last, r) && r !in page.rows && q in page.rows :: Newer(q, r))
            && (page.hasMore <==> exists r :: Alive(r, m) && Newer(last, r) && r !in page.rows)
            && |page.rows| <= limit && (page.hasMore ==> |page.rows| == limit)
  {
    var cursor := Before(PlaceOf(last));
    PageIs(m, limit, cursor);
    PageRead(ListAll(m, limit, cursor), m, limit, cursor);
    NewerAll();
    if ListAll(m, limit, cursor).hasMore {
      MoreThanThePage(m, limit, cursor);
    }
  }

  lemma NewerAll()
    ensures forall a, b :: PlaceLt(PlaceOf(b), PlaceOf(a)) <==> Newer(a, b)
  {
    forall a, b ensures PlaceLt(PlaceOf(b), PlaceOf(a)) <==> Newer(a, b) {
      NewerIs(a, b);
    }
  }

  /** The clauses of IsPage in those words. */
  lemma PageRead(page: Page, m: Moment, limit: nat, cursor: Cursor)
    requires IsPage(page, m, limit, cursor)
    ensures forall i, j | 0 <= i < j < |page.rows| :: Newer(page.rows[i], page.rows[j])
    ensures forall r | r in page.rows :: Alive(r, m)
    ensures forall r, q | Alive(r, m) && Below(r, cursor) && r !in page.rows && q in page.rows :: Newer(q, r)
  {
    NewerAll();
  }

  /** The first page has the newest rows of all. */
  lemma FirstPageMeans(m: Moment, limit: nat)
    requires Distinct(m.rows)
    ensures var page := ListAll(m, limit, Start);
            && (forall i, j | 0 <= i < j < |page.rows| :: Newer(page.rows[i], page.rows[j]))
            && (forall r | r in page.rows :: Alive(r, m))
            && (forall r, q | Alive(r, m) && r !in page.rows && q in page.rows :: Newer(q, r))
            && (page.hasMore <==> exists r :: Alive(r, m) && r !in page.rows)
            && |page.rows| <= limit && (page.hasMore ==> |page.rows| == limit)
  {
    PageIs(m, limit, Start);
    PageRead(ListAll(m, limit, Start), m, limit, Start);
    if ListAll(m, limit, Start).hasMore {
      MoreThanThePage(m, limit, Start);
    }
  }

  lemma MoreThanThePage(m: Moment, limit: nat, cursor: Cursor)
    requires Distinct(m.rows) && ListAll(m, limit, cursor).hasMore
    ensures exists r :: Visible(r, m) && Below(r, cursor) && r !in ListAll(m, limit, cursor).rows
  {
    var all := Found(m, cursor);
    FoundIs(m, cursor);
    CutIs(all, limit, ListAll(m, limit, cursor).rows);
    var r := all[limit];
    assert r in all;
    forall i | 0 <= i < limit ensures all[i] != r {
      PlaceStrict(PlaceOf(r), PlaceOf(all[i]), PlaceOf(all[i]));
    }
  }

  // ---------------------------------------------------------------- a whole reading

  /** What the tables do between the requests is free, except that rows keep their place and
      identifiers stay distinct. */
  ghost predicate Proper(moments: seq<Moment>) { forall i | 0 <= i < |moments| :: Distinct(moments[i].rows) }

  /** Everything read is strictly descending and below the cursor: no row is returned twice. */
  lemma {:induction false} ReadFalls(moments: seq<Moment>, limit: nat, cursor: Cursor)
    requires Proper(moments)
    ensures var read := Read(moments, limit, cursor).0;
            Falling(read) && forall r | r in read :: Below(r, cursor)
  {
    if moments != [] {
      PageIs(moments[0], limit, cursor);
      var page := ListAll(moments[0], limit, cursor);
      if Next(page).Before? {
        ReadFalls(moments[1..], limit, Next(page));
        var more := Read(moments[1..], limit, Next(page)).0;
        FallingJoined(page.rows, more, cursor);
        assert Read(moments, limit, cursor).0 == page.rows + more;
      }
    }
  }

  lemma FallingJoined(a: seq<Row>, b: seq<Row>, cursor: Cursor)
    requires a != [] && Falling(a) && Falling(b)
    requires forall r | r in a :: Below(r, cursor)
    requires forall r | r in b :: Below(r, Before(PlaceOf(a[|a| - 1])))
    ensures Falling(a + b) && forall r | r in a + b :: Below(r, cursor)
  {
    var last := a[|a| - 1];
    forall r, q | r in b && q in a ensures PlaceLt(PlaceOf(r), PlaceOf(q)) {
      PlaceStrict(PlaceOf(r), PlaceOf(last), PlaceOf(q));
      var i :| 0 <= i < |a| && a[i] == q;
      assert i < |a| - 1 ==> PlaceLt(PlaceOf(last), PlaceOf(q));
    }
    forall r | r in b ensures Below(r, cursor) {
      assert last in a;
      if cursor.Before? {
        PlaceStrict(PlaceOf(r), PlaceOf(last), cursor.place);
      }
    }
  }

  /** Nothing is returned that was not there to be seen. */
  lemma {:induction false} ReadWasVisible(moments: seq<Moment>, limit: nat, cursor: Cursor)
    requires Proper(moments)
    ensures forall r | r in Read(moments, limit, cursor).0 :: exists i :: 0 <= i < |moments| && Visible(r, moments[i])
  {
    if moments != [] {
      PageIs(moments[0], limit, cursor);
      var page := ListAll(moments[0], limit, cursor);
      if Next(page).Before? {
        ReadWasVisible(moments[1..], limit, Next(page));
        forall r | r in Read(moments[1..], limit, Next(page)).0
          ensures exists i :: 0 <= i < |moments| && Visible(r, moments[i])
        {
          var i :| 0 <= i < |moments[1..]| && Visible(r, moments[1..][i]);
          assert Visible(r, moments[i + 1]);
        }
      }
    }
  }

  /** A reader that comes to the end has read every row that was visible throughout. */
  lemma {:induction false} ReadMissesNothing(moments: seq<Moment>, limit: nat, cursor: Cursor, r: Row)
    requires Proper(moments) && limit > 0 && Read(moments, limit, cursor).1
    requires Below(r, cursor) && forall i | 0 <= i < |moments| :: Visible(r, moments[i])
    ensures r in Read(moments, limit, cursor).0
  {
    PageIs(moments[0], limit, cursor);
    var page := ListAll(moments[0], limit, cursor);
    if r !in page.rows {
      assert page.rows[|page.rows| - 1] in page.rows;
      assert forall i | 0 <= i < |moments[1..]| :: moments[1..][i] == moments[i + 1];
      ReadMissesNothing(moments[1..], limit, Next(page), r);
    }
  }

  /** How often a row was returned. */
  function Times(read: seq<Row>, r: Row): nat { multiset(read)[r] }

  lemma {:induction false} FallingOnce(read: seq<Row>, r: Row)
    requires Falling(read)
    ensures Times(read, r) <= 1
  {
    if read != [] {
      var init, last := read[..|read| - 1], read[|read| - 1];
      FallingOnce(init, r);
      assert read == init + [last];
      forall i | 0 <= i < |init| ensures init[i] != last {
        assert PlaceLt(PlaceOf(read[|read| - 1]), PlaceOf(read[i]));
      }
    }
  }

  /** The whole promise: following the cursors to the end returns every row that stays visible
      exactly once, in strictly descending order. */
  lemma FollowedToTheEnd(moments: seq<Moment>, limit: nat, r: Row)
    requires Proper(moments) && limit > 0 && Read(moments, limit, Start).1
    requires forall i | 0 <= i < |moments| :: Visible(r, moments[i])
    ensures Falling(Read(moments, limit, Start).0) && Times(Read(moments, limit, Start).0, r) == 1
  {
    ReadFalls(moments, limit, Start);
    ReadMissesNothing(moments, limit, Start, r);
    FallingOnce(Read(moments, limit, Start).0, r);
  }

  // ---------------------------------------------------------------- the end comes

  function Remaining(m: Moment, cursor: Cursor): set<Row> { set r | r in m.rows && Visible(r, m) && Below(r, cursor) }

  /** Nothing new appears below the cursor of the next request. */
  ghost predicate NoneBelow(moments: seq<Moment>, limit: nat, cursor: Cursor) {
    |moments| > 1 ==>
      var next := Next(ListAll(moments[0], limit, cursor));
      next.Before? ==>
        && Remaining(moments[1], next) <= Remaining(moments[0], next)
        && NoneBelow(moments[1..], limit, next)
  }

  /** Without inserts below the cursor each page takes `limit` of the remaining rows away, so a
      reader with more requests than rows comes to the end. */
  lemma {:induction false} ReadEnds(moments: seq<Moment>, limit: nat, cursor: Cursor)
    requires Proper(moments) && limit > 0 && NoneBelow(moments, limit, cursor)
    requires moments != [] && |Remaining(moments[0], cursor)| < |moments| * limit
    ensures Read(moments, limit, cursor).1
    decreases |moments|
  {
    var next, later := Next(ListAll(moments[0], limit, cursor)), moments[1..];
    if next.Before? {
      OnePage(moments[0], limit, cursor);
      OneTimesLess(|moments|, limit);
      assert |moments| > 1;
      SmallerSet(Remaining(moments[1], next), Remaining(moments[0], next));
      assert Proper(later) && |Remaining(later[0], next)| < |later| * limit;
      ReadEnds(later, limit, next);
    }
  }

  lemma OneTimesLess(n: nat, limit: nat)
    requires n > 0
    ensures n * limit == (n - 1) * limit + limit
    ensures n == 1 ==> n * limit == limit
  {}

  lemma OnePage(m: Moment, limit: nat, cursor: Cursor)
    requires Distinct(m.rows) && Next(ListAll(m, limit, cursor)).Before?
    ensures |Remaining(m, Next(ListAll(m, limit, cursor)))| + limit <= |Remaining(m, cursor)|
  {
    PageIs(m, limit, cursor);
    PageTakes(m, limit, cursor, ListAll(m, limit, cursor));
  }

  lemma PageTakes(m: Moment, limit: nat, cursor: Cursor, page: Page)
    requires IsPage(page, m, limit, cursor) && Next(page).Before?
    ensures |Remaining(m, Next(page))| + limit <= |Remaining(m, cursor)|
  {
    var taken, rest := (set r | r in page.rows), Remaining(m, Next(page));
    FallingSize(page.rows);
    TakenAndRest(m, limit, cursor, page);
    SmallerSet(taken + rest, Remaining(m, cursor));
  }

  lemma TakenAndRest(m: Moment, limit: nat, cursor: Cursor, page: Page)
    requires IsPage(page, m, limit, cursor) && Next(page).Before?
    ensures (set r | r in page.rows) !! Remaining(m, Next(page))
    ensures (set r | r in page.rows) + Remaining(m, Next(page)) <= Remaining(m, cursor)
  {
    BelowLast(page.rows, cursor);
  }

  /** Rows below the last row of a page are below the cursor and not on the page. */
  lemma BelowLast(rows: seq<Row>, cursor: Cursor)
    requires rows != [] && Falling(rows) && forall r | r in rows :: Below(r, cursor)
    ensures forall r | Below(r, Before(PlaceOf(rows[|rows| - 1]))) :: Below(r, cursor) && r !in rows
  {
    var last := rows[|rows| - 1];
    assert last in rows;
    forall r | Below(r, Before(PlaceOf(last))) ensures Below(r, cursor) && r !in rows {
      if cursor.Before? {
        PlaceStrict(PlaceOf(r), PlaceOf(last), cursor.place);
      }
      forall i | 0 <= i < |rows| ensures rows[i] != r {
        PlaceStrict(PlaceOf(r), PlaceOf(last), PlaceOf(rows[i]));
        assert i < |rows| - 1 ==> PlaceLt(PlaceOf(last), PlaceOf(rows[i]));
      }
    }
  }

  lemma {:induction false} FallingSize(rows: seq<Row>)
    requires Falling(rows)
    ensures |set r | r in rows| == |rows|
  {
    if rows != [] {
      var init, last := rows[..|rows| - 1], rows[|rows| - 1];
      FallingSize(init);
      assert rows == init + [last];
      assert last !in init;
      assert (set r | r in rows) == (set r | r in init) + {last};
    }
  }
}
