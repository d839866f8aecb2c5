/** The PostgreSQL backend (postgres.PsqlStorage), over an abstract table:
    the rows of `links` keyed by their primary key id, with the unique index
    on url. Its state is a MemoryStorage.Tables value: `links` are the rows
    (a row's own id field is left empty, its key is the id) and
    `existingURLs` is the unique index. Every statement either reaches the
    database or fails; which ones fail is a script supplied with the
    database. The delete worker, a goroutine fed by a channel and a timer
    in the source, is a sequential state machine over the events it
    receives. */
module PostgresStorage {
  import opened Types
  import opened IdGen
  import opened MemoryStorage

  /** deleteBufferSize: the most requests one flush carries. */
  const DeleteBufferSize: nat := 100

  // ---------------------------------------------------------------------
  // Statement failures

  /** The fate of successive statements: true means the statement fails
      (connection lost, deadline passed); past the end of the script every
      statement reaches the database. */
  type Faults = seq<bool>

  predicate Fails(f: Faults)
  {
    f != [] && f[0]
  }

  function Next(f: Faults): (g: Faults)
    ensures |g| <= |f|
  {
    if f == [] then [] else f[1..]
  }

  /** No statement fails. */
  predicate Healthy(f: Faults)
  {
    forall i | 0 <= i < |f| :: !f[i]
  }

  lemma HealthyNext(f: Faults)
    requires Healthy(f)
    ensures !Fails(f) && Healthy(Next(f))
  {
    if f != [] {
      assert forall i | 0 <= i < |f[1..]| :: f[1..][i] == f[i + 1];
    }
  }

  // ---------------------------------------------------------------------
  // Add

  /** The table after `INSERT INTO links (id, url, user_id)` stored a row. */
  function WithRow(t: Tables, id: ID, url: URL, user: User): Tables
  {
    Tables(t.existingURLs[url := id], t.links[id := LinkData([], url, user, false)])
  }

  datatype PgAddOutcome = PgAddOutcome(tables: Tables, id: ID, err: Option<Error>, rest: Entropy, faults: Faults)

  /** What Add does. Each round draws an identifier (a failed draw returns
      "" and the error) and runs the INSERT ... ON CONFLICT (id) DO NOTHING:
      a taken id affects no row and the round repeats; otherwise a URL that
      is already stored violates the unique index, and the identifier of
      that URL is looked up and returned with ErrURLAlreadyExists; otherwise
      the row is stored. Any failed statement returns "" and its error.
      A conflict on the id is decided before the unique index is checked,
      as PostgreSQL does for the arbiter index of ON CONFLICT. */
  function AddResult(t: Tables, url: URL, user: User, src: Entropy, f: Faults): (o: PgAddOutcome)
    ensures o.err.None? ==>
              o.id !in t.links && url !in t.existingURLs && ValidId(o.id) && o.tables == WithRow(t, o.id, url, user)
    ensures o.err.Some? ==> o.tables == t
    ensures o.err == Some(ErrURLAlreadyExists) ==> url in t.existingURLs && o.id == t.existingURLs[url]
    ensures o.err.Some? && o.err != Some(ErrURLAlreadyExists) ==>
              o.id == [] && (o.err == Some(ErrEntropy) || o.err == Some(ErrConnection))
    decreases |src|
  {
    var g := Generate(src);
    if g.None? then PgAddOutcome(t, [], Some(ErrEntropy), [], f)
    else
      GenerateValid(src);
      var id := g.value.0;
      if Fails(f) then PgAddOutcome(t, [], Some(ErrConnection), g.value.1, Next(f))
      else if id in t.links then AddResult(t, url, user, g.value.1, Next(f))
      else if url in t.existingURLs then
        if Fails(Next(f)) then PgAddOutcome(t, [], Some(ErrConnection), g.value.1, Next(Next(f)))
        else PgAddOutcome(t, t.existingURLs[url], Some(ErrURLAlreadyExists), g.value.1, Next(Next(f)))
      else PgAddOutcome(WithRow(t, id, url, user), id, None, g.value.1, Next(f))
  }

  /** Add returns nil exactly when it stored one row. */
  lemma AddInsertsOneRow(t: Tables, url: URL, user: User, src: Entropy, f: Faults)
    ensures AddResult(t, url, user, src, f).err.None?
        <==> |AddResult(t, url, user, src, f).tables.links| == |t.links| + 1
  {
    var o := AddResult(t, url, user, src, f);
    if o.err.None? {
      assert o.tables.links.Keys == t.links.Keys + {o.id};
    }
  }

  /** Storing a row under a new id and a new URL keeps the index exact. */
  lemma WithRowConsistent(t: Tables, id: ID, url: URL, user: User)
    requires Consistent(t) && id !in t.links && url !in t.existingURLs
    ensures Consistent(WithRow(t, id, url, user))
  {
  }

  lemma AddResultConsistent(t: Tables, url: URL, user: User, src: Entropy, f: Faults)
    requires Consistent(t)
    ensures Consistent(AddResult(t, url, user, src, f).tables)
  {
    var o := AddResult(t, url, user, src, f);
    if o.err.None? {
      WithRowConsistent(t, o.id, url, user);
    }
  }

  /** While the database answers, Add agrees with the in-memory backend on
      the new table, the identifier and the error (it only draws from the
      random source in a different order). */
  lemma {:induction false} AddAgreesWithMemory(t: Tables, url: URL, user: User, src: Entropy, f: Faults)
    requires Healthy(f)
    requires url !in t.existingURLs || GenerateUnused(t.links.Keys, src).Some?
    ensures AddResult(t, url, user, src, f).tables == AddLinkResult(t, url, user, src).tables
    ensures AddResult(t, url, user, src, f).id == AddLinkResult(t, url, user, src).id
    ensures AddResult(t, url, user, src, f).err == AddLinkResult(t, url, user, src).err
    decreases |src|
  {
    var g := Generate(src);
    HealthyNext(f);
    if g.Some? {
      GenerateValid(src);
      if g.value.0 in t.links {
        GenerateUnusedSkip(t.links.Keys, src);
        AddAgreesWithMemory(t, url, user, g.value.1, Next(f));
      } else {
        GenerateUnusedFirst(t.links.Keys, src);
        HealthyNext(Next(f));
      }
    }
  }

  // ---------------------------------------------------------------------
  // The delete worker

  /** What the worker receives: a request from DeleteUserLinks, the end of
      the batch timer, or the shutdown signal of Close. */
  datatype Event = Item(id: ID, user: User) | Timeout | Shutdown

  /** The ids and users buffers of one round. */
  datatype Batch = Batch(ids: seq<ID>, users: seq<User>)

  const NoBatch := Batch([], [])

  predicate WellFormed(b: Batch)
  {
    |b.ids| == |b.users|
  }

  function Push(b: Batch, id: ID, user: User): Batch
  {
    Batch(b.ids + [id], b.users + [user])
  }

  function Cat(a: Batch, b: Batch): Batch
  {
    Batch(a.ids + b.ids, a.users + b.users)
  }

  lemma CatNoBatch(a: Batch)
    ensures Cat(a, NoBatch) == a && Cat(NoBatch, a) == a
  {
    assert a.ids + [] == a.ids && a.users + [] == a.users;
  }

  lemma CatAssoc(a: Batch, b: Batch, c: Batch)
    ensures Cat(Cat(a, b), c) == Cat(a, Cat(b, c))
  {
    assert a.ids + b.ids + c.ids == a.ids + (b.ids + c.ids);
    assert a.users + b.users + c.users == a.users + (b.users + c.users);
  }

  /** The requests a batch carries, one per index. */
  predicate Requested(b: Batch, id: ID, user: User)
  {
    exists k | 0 <= k < |b.ids| && k < |b.users| :: b.ids[k] == id && b.users[k] == user
  }

  /** The flush: `UPDATE links SET deleted = TRUE` on the rows whose id and
      user_id both match one request of the batch. Nothing else changes. */
  function MarkDeleted(t: Tables, b: Batch): (r: Tables)
    ensures r.existingURLs == t.existingURLs && r.links.Keys == t.links.Keys
    ensures forall id | id in t.links ::
              r.links[id].url == t.links[id].url && r.links[id].user == t.links[id].user
  {
    Tables(t.existingURLs,
           map id | id in t.links ::
             if Requested(b, id, t.links[id].user) then t.links[id].(deleted := true) else t.links[id])
  }

  /** A failed flush is logged and its batch dropped. */
  function FlushResult(t: Tables, b: Batch, f: Faults): Tables
  {
    if Fails(f) then t else MarkDeleted(t, b)
  }

  /** The memory backend's reading of the same requests: DeleteUserLink for
      each (id, user) of the batch in turn. */
  function DeletePairs(t: Tables, b: Batch): Tables
    requires WellFormed(b)
    decreases |b.ids|
  {
    if b.ids == [] then t
    else
      var n := |b.ids| - 1;
      DeleteLinkResult(DeletePairs(t, Batch(b.ids[..n], b.users[..n])), b.ids[n], b.users[n]).0
  }

  lemma MarkDeletedPush(t: Tables, b: Batch, id: ID, user: User)
    requires WellFormed(b)
    ensures MarkDeleted(t, Push(b, id, user)) == DeleteLinkResult(MarkDeleted(t, b), id, user).0
  {
    var b' := Push(b, id, user);
    var m := MarkDeleted(t, b);
    var lhs := MarkDeleted(t, b');
    var rhs := DeleteLinkResult(m, id, user).0;
    forall x, w ensures Requested(b', x, w) <==> Requested(b, x, w) || (x == id && w == user)
    {
      if Requested(b', x, w) {
        var k :| 0 <= k < |b'.ids| && k < |b'.users| && b'.ids[k] == x && b'.users[k] == w;
        if k < |b.ids| {
          assert b.ids[k] == x && b.users[k] == w;
        }
      }
      if Requested(b, x, w) {
        var k :| 0 <= k < |b.ids| && k < |b.users| && b.ids[k] == x && b.users[k] == w;
        assert b'.ids[k] == x && b'.users[k] == w;
      }
      if x == id && w == user {
        assert b'.ids[|b.ids|] == x && b'.users[|b.ids|] == w;
      }
    }
    assert lhs.links.Keys == rhs.links.Keys;
    forall x | x in lhs.links ensures lhs.links[x] == rhs.links[x]
    {
    }
  }

  /** The flush of a batch does what the in-memory backend does with the
      same requests. */
  lemma {:induction false} FlushAgreesWithMemory(t: Tables, b: Batch)
    requires WellFormed(b)
    ensures MarkDeleted(t, b) == DeletePairs(t, b)
    decreases |b.ids|
  {
    if b.ids == [] {
      assert forall x, w :: !Requested(b, x, w);
      assert MarkDeleted(t, b).links == t.links;
    } else {
      var n := |b.ids| - 1;
      var init := Batch(b.ids[..n], b.users[..n]);
      FlushAgreesWithMemory(t, init);
      assert b == Push(init, b.ids[n], b.users[n]);
      MarkDeletedPush(t, init, b.ids[n], b.users[n]);
    }
  }

  lemma {:induction false} DeletePairsCat(t: Tables, a: Batch, b: Batch)
    requires WellFormed(a) && WellFormed(b)
    ensures DeletePairs(t, Cat(a, b)) == DeletePairs(DeletePairs(t, a), b)
    decreases |b.ids|
  {
    if b.ids == [] {
      CatNoBatch(a);
      assert b == NoBatch;
    } else {
      var n := |b.ids| - 1;
      var init := Batch(b.ids[..n], b.users[..n]);
      DeletePairsCat(t, a, init);
      var ab := Cat(a, b);
      var m := |ab.ids| - 1;
      assert ab.ids[..m] == a.ids + init.ids && ab.users[..m] == a.users + init.users;
      assert ab.ids[m] == b.ids[n] && ab.users[m] == b.users[n];
    }
  }

  /** The inner loop of a round ended because the batch was full, the timer
      fired, Close signalled, or (Waiting) no further event has arrived. */
  datatype Stop = Full | TimedOut | ShutDown | Waiting

  datatype Round = Round(batch: Batch, stop: Stop, rest: seq<Event>)

  /** The inner loop: requests are appended until the batch holds
      bufferSize of them (a bufferSize of 0 never fills), the timer fires or
      the shutdown signal arrives. */
  function Collect(events: seq<Event>, size: nat, b: Batch): (r: Round)
    requires WellFormed(b)
    ensures WellFormed(r.batch) && |b.ids| <= |r.batch.ids|
    ensures r.stop == Waiting ==> r.rest == []
    ensures r.stop != Waiting ==> |r.rest| < |events|
    ensures r.stop == Full ==> |r.batch.ids| == size
    ensures 0 < size && |b.ids| < size ==>
              |r.batch.ids| <= size && (|r.batch.ids| == size <==> r.stop == Full)
    decreases |events|
  {
    if events == [] then Round(b, Waiting, [])
    else if events[0].Item? then
      var b' := Push(b, events[0].id, events[0].user);
      if |b'.ids| == size then Round(b', Full, events[1..]) else Collect(events[1..], size, b')
    else if events[0].Timeout? then Round(b, TimedOut, events[1..])
    else Round(b, ShutDown, events[1..])
  }

  /** Where the worker is: the table, the remaining fault script, the
      batches flushed so far, the requests of an unfinished round, and
      whether it has stopped (and signalled completion). */
  datatype WorkerState = WorkerState(tables: Tables, faults: Faults, flushed: seq<Batch>, pending: Batch, stopped: bool)

  function Prepend(out: seq<Batch>, w: WorkerState): WorkerState
  {
    w.(flushed := out + w.flushed)
  }

  lemma PrependPrepend(a: seq<Batch>, b: seq<Batch>, w: WorkerState)
    ensures Prepend(a, Prepend(b, w)) == Prepend(a + b, w)
  {
    assert a + (b + w.flushed) == a + b + w.flushed;
  }

  /** deleteUserLinksWorker: rounds of Collect from an empty batch; a
      non-empty batch is flushed; the worker stops after the round that saw
      the shutdown signal. When the events run out the worker is waiting in
      a round with the requests gathered so far. */
  function Run(t: Tables, f: Faults, events: seq<Event>, size: nat): (w: WorkerState)
    ensures forall i | 0 <= i < |w.flushed| ::
              WellFormed(w.flushed[i]) && w.flushed[i].ids != [] && (0 < size ==> |w.flushed[i].ids| <= size)
    ensures WellFormed(w.pending) && (0 < size ==> |w.pending.ids| < size)
    ensures w.stopped ==> w.pending == NoBatch
    decreases |events|
  {
    var c := Collect(events, size, NoBatch);
    if c.stop == Waiting then WorkerState(t, f, [], c.batch, false)
    else if c.batch.ids == [] then
      if c.stop == ShutDown then WorkerState(t, f, [], NoBatch, true) else Run(t, f, c.rest, size)
    else if c.stop == ShutDown then WorkerState(FlushResult(t, c.batch, f), Next(f), [c.batch], NoBatch, true)
    else Prepend([c.batch], Run(FlushResult(t, c.batch, f), Next(f), c.rest, size))
  }

  /** The requests the worker accepts: every Item before the first Shutdown. */
  function Received(events: seq<Event>): (b: Batch)
    ensures WellFormed(b)
    decreases |events|
  {
    if events == [] || events[0].Shutdown? then NoBatch
    else if events[0].Item? then Cat(Batch([events[0].id], [events[0].user]), Received(events[1..]))
    else Received(events[1..])
  }

  /** All batches, in order. */
  function Joined(bs: seq<Batch>): Batch
  {
    if bs == [] then NoBatch else Cat(bs[0], Joined(bs[1..]))
  }

  lemma {:induction false} CollectReceives(events: seq<Event>, size: nat, b: Batch)
    requires WellFormed(b)
    ensures Cat(b, Received(events))
         == Cat(Collect(events, size, b).batch,
                if Collect(events, size, b).stop == ShutDown then NoBatch else Received(Collect(events, size, b).rest))
    decreases |events|
  {
    if events == [] {
    } else if events[0].Item? {
      var one := Batch([events[0].id], [events[0].user]);
      var b' := Push(b, events[0].id, events[0].user);
      CatAssoc(b, one, Received(events[1..]));
      assert Cat(b, one) == b';
      if |b'.ids| != size {
        CollectReceives(events[1..], size, b');
      }
    } else if events[0].Shutdown? {
      CatNoBatch(b);
    }
  }

  /** No request is lost or reordered: the flushed batches and the open
      round hold exactly the requests received. */
  lemma {:induction false} RunReceives(t: Tables, f: Faults, events: seq<Event>, size: nat)
    ensures Cat(Joined(Run(t, f, events, size).flushed), Run(t, f, events, size).pending) == Received(events)
    decreases |events|
  {
    var c := Collect(events, size, NoBatch);
    CollectReceives(events, size, NoBatch);
    CatNoBatch(Received(events));
    CatNoBatch(c.batch);
    if c.stop == Waiting {
    } else if c.batch.ids == [] {
      assert c.batch == NoBatch;
      if c.stop != ShutDown {
        RunReceives(t, f, c.rest, size);
      }
    } else if c.stop == ShutDown {
      assert Joined([c.batch]) == Cat(c.batch, Joined([]));
    } else {
      var w := Run(FlushResult(t, c.batch, f), Next(f), c.rest, size);
      RunReceives(FlushResult(t, c.batch, f), Next(f), c.rest, size);
      assert ([c.batch] + w.flushed)[1..] == w.flushed;
      CatAssoc(c.batch, Joined(w.flushed), w.pending);
    }
  }

  lemma {:induction false} CollectShutdown(events: seq<Event>, size: nat, b: Batch)
    requires WellFormed(b)
    ensures Collect(events, size, b).stop == ShutDown ==> Shutdown in events
    ensures Collect(events, size, b).stop != ShutDown ==>
              (Shutdown in events <==> Shutdown in Collect(events, size, b).rest)
    decreases |events|
  {
    if events != [] {
      assert events == [events[0]] + events[1..];
      if events[0].Item? && |Push(b, events[0].id, events[0].user).ids| != size {
        CollectShutdown(events[1..], size, Push(b, events[0].id, events[0].user));
      }
    }
  }

  /** The worker stops exactly when the shutdown signal is among its events. */
  lemma {:induction false} RunStops(t: Tables, f: Faults, events: seq<Event>, size: nat)
    ensures Run(t, f, events, size).stopped <==> Shutdown in events
    decreases |events|
  {
    var c := Collect(events, size, NoBatch);
    CollectShutdown(events, size, NoBatch);
    if c.stop != Waiting && c.stop != ShutDown {
      if c.batch.ids == [] {
        RunStops(t, f, c.rest, size);
      } else {
        RunStops(FlushResult(t, c.batch, f), Next(f), c.rest, size);
      }
    }
  }

  /** While the database answers, the table after the worker's flushes is
      the memory backend's after the same requests. */
  lemma {:induction false} RunDeletes(t: Tables, f: Faults, events: seq<Event>, size: nat)
    requires Healthy(f)
    ensures WellFormed(Joined(Run(t, f, events, size).flushed))
    ensures Run(t, f, events, size).tables == DeletePairs(t, Joined(Run(t, f, events, size).flushed))
    decreases |events|
  {
    var c := Collect(events, size, NoBatch);
    HealthyNext(f);
    if c.stop == Waiting {
    } else if c.batch.ids == [] {
      if c.stop != ShutDown {
        RunDeletes(t, f, c.rest, size);
      }
    } else {
      FlushAgreesWithMemory(t, c.batch);
      if c.stop == ShutDown {
        assert Joined([c.batch]) == Cat(c.batch, NoBatch);
        CatNoBatch(c.batch);
      } else {
        var t' := MarkDeleted(t, c.batch);
        var w := Run(t', Next(f), c.rest, size);
        RunDeletes(t', Next(f), c.rest, size);
        assert ([c.batch] + w.flushed)[1..] == w.flushed;
        DeletePairsCat(t, c.batch, Joined(w.flushed));
      }
    }
  }

  /** Once stopped, with no failed flush, the worker has applied every
      request it received, as the in-memory backend would. */
  lemma WorkerAppliesRequests(t: Tables, f: Faults, events: seq<Event>, size: nat)
    requires Healthy(f) && Shutdown in events
    ensures Run(t, f, events, size).stopped
    ensures Run(t, f, events, size).tables == DeletePairs(t, Received(events))
  {
    RunStops(t, f, events, size);
    RunReceives(t, f, events, size);
    RunDeletes(t, f, events, size);
    CatNoBatch(Joined(Run(t, f, events, size).flushed));
  }

  /** The items DeleteUserLinks sends, one per identifier, in order. */
  function Requests(ids: seq<ID>, user: User): (es: seq<Event>)
    ensures |es| == |ids| && forall i | 0 <= i < |ids| :: es[i] == Item(ids[i], user)
  {
    seq(|ids|, i requires 0 <= i < |ids| => Item(ids[i], user))
  }

  /** The same identifier list deleted for one user, as a batch. */
  function ForUser(ids: seq<ID>, user: User): (b: Batch)
    ensures WellFormed(b) && b.ids == ids
  {
    Batch(ids, seq(|ids|, _ => user))
  }

  lemma {:induction false} ReceivedRequests(ids: seq<ID>, user: User, later: seq<Event>)
    ensures Received(Requests(ids, user) + [Shutdown] + later) == ForUser(ids, user)
    decreases |ids|
  {
    var es := Requests(ids, user) + [Shutdown] + later;
    if ids == [] {
      assert es[0] == Shutdown;
    } else {
      assert es[0] == Item(ids[0], user);
      assert es[1..] == Requests(ids[1..], user) + [Shutdown] + later;
      ReceivedRequests(ids[1..], user, later);
      assert ForUser(ids, user) == Cat(Batch([ids[0]], [user]), ForUser(ids[1..], user));
    }
  }

  lemma {:induction false} DeletePairsForUser(t: Tables, ids: seq<ID>, user: User)
    ensures DeletePairs(t, ForUser(ids, user)) == DeleteAll(t, ids, user)
    decreases |ids|
  {
    if ids != [] {
      var n := |ids| - 1;
      DeletePairsForUser(t, ids[..n], user);
      assert ForUser(ids, user).users[..n] == ForUser(ids[..n], user).users;
      assert ids == ids[..n] + [ids[n]];
      DeleteAllSnoc(t, ids[..n], ids[n], user);
    }
  }

  /** DeleteUserLinks followed by Close: while the database answers, the
      worker ends with every row of ids that user owns marked deleted, just
      as the in-memory backend's DeleteUserLinks does. */
  lemma DeleteThenClose(t: Tables, f: Faults, ids: seq<ID>, user: User, size: nat)
    requires Healthy(f)
    ensures Run(t, f, Requests(ids, user) + [Shutdown], size).stopped
    ensures Run(t, f, Requests(ids, user) + [Shutdown], size).tables == DeleteAll(t, ids, user)
  {
    var es := Requests(ids, user) + [Shutdown];
    assert es[|ids|] == Shutdown;
    assert es == Requests(ids, user) + [Shutdown] + [];
    ReceivedRequests(ids, user, []);
    WorkerAppliesRequests(t, f, es, size);
    DeletePairsForUser(t, ids, user);
  }

  // ---------------------------------------------------------------------
  // The database and the storage object

  /** The abstract table, and the fault script of its connection. */
  class Database {
    var table: Tables
    var faults: Faults

    constructor(t: Tables, f: Faults)
      ensures table == t && faults == f
    {
      table := t;
      faults := f;
    }

    /** INSERT INTO links (id, url, user_id) VALUES (...) ON CONFLICT (id)
        DO NOTHING, and the number of rows it affected. */
    method ExecInsert(id: ID, url: URL, user: User) returns (affected: nat, err: Option<Error>)
      modifies this
      ensures faults == Next(old(faults))
      ensures Fails(old(faults)) ==> table == old(table) && affected == 0 && err == Some(ErrConnection)
      ensures !Fails(old(faults)) && id in old(table).links ==>
                table == old(table) && affected == 0 && err.None?
      ensures !Fails(old(faults)) && id !in old(table).links && url in old(table).existingURLs ==>
                table == old(table) && affected == 0 && err == Some(ErrUniqueViolation)
      ensures !Fails(old(faults)) && id !in old(table).links && url !in old(table).existingURLs ==>
                table == WithRow(old(table), id, url, user) && affected == 1 && err.None?
    {
      var failed := Fails(faults);
      faults := Next(faults);
      if failed {
        return 0, Some(ErrConnection);
      }
      if id in table.links {
        return 0, None;
      }
      if url in table.existingURLs {
        return 0, Some(ErrUniqueViolation);
      }
      table := WithRow(table, id, url, user);
      return 1, None;
    }

    /** SELECT id FROM links WHERE url = $1. */
    method QueryIdByUrl(url: URL) returns (id: ID, err: Option<Error>)
      modifies this
      ensures table == old(table) && faults == Next(old(faults))
      ensures Fails(old(faults)) ==> id == [] && err == Some(ErrConnection)
      ensures !Fails(old(faults)) && url !in table.existingURLs ==> id == [] && err == Some(ErrNoRows)
      ensures !Fails(old(faults)) && url in table.existingURLs ==> id == table.existingURLs[url] && err.None?
    {
      var failed := Fails(faults);
      faults := Next(faults);
      if failed {
        return [], Some(ErrConnection);
      }
      if url !in table.existingURLs {
        return [], Some(ErrNoRows);
      }
      return table.existingURLs[url], None;
    }

    /** The worker's UPDATE links SET deleted = TRUE over the batch. */
    method ExecMarkDeleted(ids: seq<ID>, users: seq<User>) returns (err: Option<Error>)
      modifies this
      ensures table == FlushResult(old(table), Batch(ids, users), old(faults)) && faults == Next(old(faults))
      ensures err.Some? <==> Fails(old(faults))
    {
      var failed := Fails(faults);
      faults := Next(faults);
      if failed {
        return Some(ErrConnection);
      }
      table := MarkDeleted(table, Batch(ids, users));
      return None;
    }
  }

  class PsqlStorage {
    const db: Database
    /** Everything sent to the worker so far: the requests of
        DeleteUserLinks and the shutdown signal of Close. */
    var deleteCh: seq<Event>

    /** NewPsqlStorage after a successful open and migration. */
    constructor(database: Database)
      ensures db == database && deleteCh == []
    {
      db := database;
      deleteCh := [];
    }

    /** Add: the retry loop of AddResult. */
    method Add(url: URL, user: User, src: Entropy) returns (id: ID, err: Option<Error>, rest: Entropy)
      modifies db
      ensures PgAddOutcome(db.table, id, err, rest, db.faults) == AddResult(old(db.table), url, user, src, old(db.faults))
    {
      var cur := src;
      while true
        invariant db.table == old(db.table)
        invariant AddResult(old(db.table), url, user, src, old(db.faults)) == AddResult(db.table, url, user, cur, db.faults)
        decreases |cur|
      {
        var prev := cur;
        var e;
        id, e, cur := GenRandomID(prev);
        if e.Some? {
          return [], e, [];
        }
        GenerateValid(prev);
        var affected, execErr := db.ExecInsert(id, url, user);
        if execErr == Some(ErrUniqueViolation) {
          var found, queryErr := db.QueryIdByUrl(url);
          if queryErr.Some? {
            return [], queryErr, cur;
          }
          return found, Some(ErrURLAlreadyExists), cur;
        }
        if execErr.Some? {
          return [], execErr, cur;
        }
        if affected == 1 {
          break;
        }
      }
      return id, None, cur;
    }

    /** DeleteUserLinks: one request per identifier, in order; always nil. */
    method DeleteUserLinks(ids: seq<ID>, user: User) returns (err: Option<Error>)
      modifies this
      ensures deleteCh == old(deleteCh) + Requests(ids, user)
      ensures err.None?
    {
      var i := 0;
      while i < |ids|
        invariant 0 <= i <= |ids|
        invariant deleteCh == old(deleteCh) + Requests(ids[..i], user)
      {
        deleteCh := deleteCh + [Item(ids[i], user)];
        i := i + 1;
      }
      assert ids[..i] == ids;
      return None;
    }

    /** Close: the shutdown signal, then the database's own Close, whose
        outcome ok gives. */
    method Close(ok: bool) returns (err: Option<Error>)
      modifies this
      ensures deleteCh == old(deleteCh) + [Shutdown]
      ensures err.None? <==> ok
    {
      deleteCh := deleteCh + [Shutdown];
      return if ok then None else Some(ErrConnection);
    }

    /** The inner loop of one round of deleteUserLinksWorker, from empty
        buffers: receive requests until the buffers hold bufferSize of them,
        the timer fires or the shutdown signal arrives; Waiting when the
        events run out first. */
    method CollectRound(events: seq<Event>, bufferSize: nat) returns (ids: seq<ID>, users: seq<User>, stop: Stop, rest: seq<Event>)
      ensures Round(Batch(ids, users), stop, rest) == Collect(events, bufferSize, NoBatch)
    {
      ids, users, stop, rest := [], [], Waiting, events;
      while stop == Waiting && rest != []
        invariant WellFormed(Batch(ids, users))
        invariant stop == Waiting ==> Collect(events, bufferSize, NoBatch) == Collect(rest, bufferSize, Batch(ids, users))
        invariant stop != Waiting ==> Collect(events, bufferSize, NoBatch) == Round(Batch(ids, users), stop, rest)
        decreases |rest|, if stop == Waiting then 1 else 0
      {
        var e := rest[0];
        rest := rest[1..];
        if e.Item? {
          ids := ids + [e.id];
          users := users + [e.user];
          if |ids| == bufferSize {
            stop := Full;
          }
        } else if e.Timeout? {
          stop := TimedOut;
        } else {
          stop := ShutDown;
        }
      }
    }

    /** deleteUserLinksWorker over the events it receives, in order. */
    method DeleteUserLinksWorker(events: seq<Event>, bufferSize: nat) returns (flushed: seq<Batch>, pending: Batch, stopped: bool)
      modifies db
      ensures WorkerState(db.table, db.faults, flushed, pending, stopped)
           == Run(old(db.table), old(db.faults), events, bufferSize)
    {
      var rest := events;
      flushed := [];
      while true
        invariant Run(old(db.table), old(db.faults), events, bufferSize)
               == Prepend(flushed, Run(db.table, db.faults, rest, bufferSize))
        decreases |rest|
      {
        var start := rest;
        var ids, users, stop;
        ids, users, stop, rest := CollectRound(start, bufferSize);
        ghost var b := Batch(ids, users);
        if stop == Waiting {
          assert flushed + [] == flushed;
          return flushed, Batch(ids, users), false;
        }
        if |ids| == 0 {
          if stop == ShutDown {
            assert flushed + [] == flushed;
            return flushed, NoBatch, true;
          }
          continue;
        }
        ghost var t0, f0 := db.table, db.faults;
        var _ := db.ExecMarkDeleted(ids, users);
        if stop == ShutDown {
          assert Run(t0, f0, start, bufferSize) == WorkerState(db.table, db.faults, [b], NoBatch, true);
          return flushed + [Batch(ids, users)], NoBatch, true;
        }
        assert Run(t0, f0, start, bufferSize) == Prepend([b], Run(db.table, db.faults, rest, bufferSize));
        PrependPrepend(flushed, [b], Run(db.table, db.faults, rest, bufferSize));
        flushed := flushed + [Batch(ids, users)];
      }
    }
  }
}
