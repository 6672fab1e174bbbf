/** Attachments of stored mail: bytes in a key-value store, rows in a table without foreign key
    (storeAttachments, removeAttachments and cleanup of cloudflare-mailbox/src/messages/service.ts). */
module AttachmentStore {
  import opened MessageStore

  /** Row id and object key are both derived from the message and the position in it. */
  datatype Attachment = Attachment(message: string, index: nat)

  datatype Expiry = Never | At(time: int)

  type Objects = map<Attachment, Expiry>

  const BATCH := 100

  predicate Visible(m: Row, now: int) { m.permanent || m.expiresAt > now }

  predicate Known(messages: seq<Row>, id: string) { exists m | m in messages :: m.id == id }

  predicate Expired(messages: seq<Row>, now: int, id: string) {
    exists m | m in messages :: m.id == id && !Visible(m, now)
  }

  function Surviving(messages: seq<Row>, now: int): seq<Row> { Kept(messages, (m: Row) => Visible(m, now)) }

  predicate Identified(messages: seq<Row>) { forall m, n | m in messages && n in messages :: m.id == n.id ==> m == n }

  /** The object lives at least as long as the message. */
  predicate Outlives(e: Expiry, m: Row) { e.Never? || (!m.permanent && m.expiresAt <= e.time) }

  /** Every row of a visible message has its bytes, and they will last as long as the message. */
  ghost predicate Backed(rows: set<Attachment>, objects: Objects, messages: seq<Row>, now: int) {
    forall a, m | a in rows && m in messages && m.id == a.message && Visible(m, now) ::
      a in objects && Outlives(objects[a], m)
  }

  function Full(message: string, count: nat): set<Attachment> { set i: nat | i < count :: Attachment(message, i) }

  /** The attachments whose message is in the table. */
  function Of(rows: set<Attachment>, messages: seq<Row>): set<Attachment> {
    set a | a in rows && Known(messages, a.message)
  }

  function ExpiredRows(rows: set<Attachment>, messages: seq<Row>, now: int): set<Attachment> {
    set a | a in rows && Expired(messages, now, a.message)
  }

  /** Rows without an expired message are of a surviving one or of none. */
  lemma SurvivingIs(rows: set<Attachment>, messages: seq<Row>, now: int)
    requires Identified(messages)
    ensures Of(rows, Surviving(messages, now)) == Of(rows, messages) - ExpiredRows(rows, messages, now)
    ensures Identified(Surviving(messages, now))
  {
    var kept := Surviving(messages, now);
    forall a | a in rows
      ensures Known(kept, a.message) <==> Known(messages, a.message) && !Expired(messages, now, a.message)
    {
      if Known(messages, a.message) && !Expired(messages, now, a.message) {
        var m :| m in messages && m.id == a.message;
        assert m in kept;
      }
    }
  }

  lemma MinusTwice(rows: set<Attachment>, objects: Objects, a: set<Attachment>, b: set<Attachment>)
    ensures rows - a - b == rows - (a + b) && objects - a - b == objects - (a + b)
  {}

  lemma LeftAfter(all: set<Attachment>, left: set<Attachment>, batch: set<Attachment>, failing: set<Attachment>)
    requires batch <= left <= all
    ensures all - (left - batch) == (all - left) + batch
    ensures failing !! all ==> failing !! batch
    ensures failing !! all - left && failing !! batch ==> failing !! all - (left - batch)
  {}

  class Archive {
    var rows: set<Attachment>
    var objects: Objects
    /** The message table; MessageStore.MessageWorker writes it. */
    var messages: seq<Row>
    var now: int
    /** Objects put by a request that died before it wrote the row. */
    ghost var stray: set<Attachment>

    ghost predicate Valid()
      reads this
    {
      && Identified(messages) && Backed(rows, objects, messages, now)
      && objects.Keys <= rows + stray
    }

    constructor (messages: seq<Row>, now: int)
      requires Identified(messages)
      ensures Valid() && this.messages == messages && rows == {} && objects == map[] && stray == {}
    {
      this.messages, this.now, rows, objects, stray := messages, now, {}, map[], {};
    }

    /** Time passes, and the key-value store drops what has expired. */
    method Wait(later: int)
      requires Valid() && now <= later
      modifies this`now, this`objects
      ensures Valid() && now == later
      ensures objects == map a | a in old(objects) && (old(objects)[a].At? ==> old(objects)[a].time > later) ::
                           old(objects)[a]
    {
      now := later;
      objects := map a | a in objects && (objects[a].At? ==> objects[a].time > later) :: objects[a];
    }

    /** A message arrives under a new random identifier. */
    method Arrive(m: Row)
      requires Valid() && !Known(messages, m.id) && forall a | a in rows :: a.message != m.id
      modifies this`messages
      ensures Valid() && messages == old(messages) + [m]
    {
      messages := messages + [m];
    }

    /** Messages go with their alias; their attachments stay behind as orphans. */
    method DropAlias(alias: string)
      requires Valid()
      modifies this`messages
      ensures Valid() && forall m :: m in messages <==> m in old(messages) && m.alias != alias
    {
      messages := Kept(messages, (m: Row) => m.alias != alias);
    }

    /** storeAttachments for a message that was just inserted or was there already; the request
        can die before any write. */
    method StoreAttachments(message: string, count: nat, expiry: Expiry, dies: nat) returns (done: bool)
      requires Valid() && forall m | m in messages && m.id == message :: Outlives(expiry, m)
      modifies this`rows, this`objects, this`stray
      ensures Valid() && old(rows) <= rows <= old(rows) + Full(message, count)
      ensures forall a: Attachment :: a !in Full(message, count) ==>
                                        (a in objects <==> a in old(objects))
                                        && (a in objects ==> objects[a] == old(objects)[a])
      ensures done ==> rows == old(rows) + Full(message, count)
      ensures done ==> forall a | a in Full(message, count) :: a in objects && objects[a] == expiry
      ensures done ==> stray == old(stray) - Full(message, count)
      ensures done <==> dies >= 2 * count
    {
      var index := 0;
      while index < count
        invariant index <= count && Valid() && rows == old(rows) + Full(message, index)
        invariant forall a | a in Full(message, index) :: a in objects && objects[a] == expiry
        invariant dies >= 2 * index && stray == old(stray) - Full(message, index)
                  && Full(message, index) <= Full(message, count)
        invariant forall a: Attachment :: a !in Full(message, index) ==>
                                            (a in objects <==> a in old(objects))
                                            && (a in objects ==> objects[a] == old(objects)[a])
      {
        var a := Attachment(message, index);
        assert Full(message, index + 1) == Full(message, index) + {a};
        if dies == 2 * index {
          return false;
        }
        objects, stray := objects[a := expiry], stray + {a};
        if dies == 2 * index + 1 {
          return false;
        }
        rows, stray := rows + {a}, stray - {a};
        index := index + 1;
      }
      return true;
    }

    /** removeAttachments: bytes first, then rows; when the deletion of some bytes fails, the
        rows stay for the next time. */
    method RemoveAttachments(batch: set<Attachment>, failing: set<Attachment>) returns (done: bool)
      requires Valid() && batch <= rows
      requires forall a, m | a in batch && m in messages && m.id == a.message :: !Visible(m, now)
      modifies this`rows, this`objects
      ensures Valid() && (done <==> failing !! batch)
      ensures rows == if done then old(rows) - batch else old(rows)
      ensures objects == old(objects) - (batch - failing) && (done ==> objects == old(objects) - batch)
    {
      objects := objects - (batch - failing);
      done := failing !! batch;
      if done {
        assert batch - failing == batch;
        rows := rows - batch;
      }
    }

    /** A query with LIMIT 100. */
    method Limited(all: set<Attachment>) returns (batch: set<Attachment>)
      ensures batch <= all && |batch| <= BATCH && (|batch| < BATCH ==> batch == all)
    {
      batch := {};
      var left := all;
      while left != {} && |batch| < BATCH
        invariant batch + left == all && batch !! left && |batch| <= BATCH
        decreases left
      {
        var a :| a in left;
        batch, left := batch + {a}, left - {a};
      }
    }

    /** One of the two loops of cleanup: remove everything in `all`, a hundred at a time.  The bytes
        in `failing` cannot be deleted. */
    method RemoveAll(all: set<Attachment>, failing: set<Attachment>) returns (done: bool)
      requires Valid() && all <= rows
      requires forall a, m | a in all && m in messages && m.id == a.message :: !Visible(m, now)
      modifies this`rows, this`objects
      ensures Valid() && old(rows) - all <= rows <= old(rows)
      ensures done <==> failing !! all
      ensures done ==> rows == old(rows) - all && objects == old(objects) - all
    {
      var left := all;
      while true
        invariant Valid() && left <= all && rows == old(rows) - (all - left) && objects == old(objects) - (all - left)
        invariant failing !! all - left
        decreases left
      {
        var batch := Limited(left);
        LeftAfter(all, left, batch, failing);
        if batch == {} {
          break;
        }
        MinusTwice(old(rows), old(objects), all - left, batch);
        var ok := RemoveAttachments(batch, failing);
        if !ok {
          return false;
        }
        left := left - batch;
        if |batch| < BATCH {
          break;
        }
      }
      assert left == {} && all - left == all;
      return true;
    }

    /** cleanup.  Exactly if none of the bytes it is to delete fails, it completes: then exactly the
        attachments of the surviving messages are left, and the bytes of all others are gone. */
    method Cleanup(failing: set<Attachment>) returns (done: bool)
      requires Valid()
      modifies this`rows, this`objects, this`messages
      ensures Valid() && Of(old(rows), Surviving(old(messages), now)) <= rows <= old(rows)
      ensures done <==> failing !! old(rows) - Of(old(rows), Surviving(old(messages), now))
      ensures done ==> messages == Surviving(old(messages), now)
      ensures done ==> rows == Of(old(rows), messages)
      // whether it completes or not: what is permanent or has not expired keeps its attachments
      ensures forall m | m in old(messages) && (m.permanent || m.expiresAt > now) ::
                m in messages && forall a | a in old(rows) && a.message == m.id :: a in rows
      ensures done ==> forall m | m in messages :: m.permanent || m.expiresAt > now
      ensures done ==> forall a | a in rows :: exists m :: m in messages && m.id == a.message
      ensures done ==> objects == old(objects) - (old(rows) - rows)
    {
      SurvivingIs(rows, messages, now);
      var expired := ExpiredRows(rows, messages, now);
      done := RemoveAll(expired, failing);
      if !done {
        return;
      }
      messages := Surviving(messages, now);
      var orphans := rows - Of(rows, messages);
      done := RemoveAll(orphans, failing);
      assert old(rows) - Of(old(rows), messages) == expired + orphans;
    }
  }
}
