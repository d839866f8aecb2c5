/** The first PostgreSQL backend (repositories.PsqlStorage in
    psqlStorage.go, on pgx). Its table, its fault script and the statements
    it runs are those of PostgresStorage.Database. Its Add is the retry loop
    of the current backend: pgx reports the affected rows without an error,
    so AddResult of PostgresStorage is its specification too. There is no
    delete, and its queries read deleted rows like any other. */
module LegacyPgxStorage {
  import opened Types
  import opened IdGen
  import opened MemoryStorage
  import opened PostgresStorage
  import LegacyMemoryStorage

  /** Get: SELECT url FROM links WHERE id = $1. A failed statement or a
      missing row returns "" and the error. */
  function GetResult(t: Tables, id: ID, f: Faults): (r: (URL, Option<Error>))
    ensures r.1.None? <==> !Fails(f) && id in t.links
    ensures r.1.None? ==> r.0 == t.links[id].url
    ensures r.1.Some? ==> r.0 == [] && (r.1 == Some(ErrConnection) || r.1 == Some(ErrNoRows))
  {
    if Fails(f) then ([], Some(ErrConnection))
    else if id in t.links then (t.links[id].url, None)
    else ([], Some(ErrNoRows))
  }

  /** GetUserLinks: SELECT id, url FROM links WHERE user_id = $1, every row
      of the owner, deleted or not. */
  function Rows(t: Tables, user: User): set<UserLink>
  {
    set id | id in t.links && t.links[id].user == user :: UserLink(id, t.links[id].url)
  }

  /** The rows the query reads are what the first in-memory backend reports
      for the same records. */
  lemma RowsAsLegacyMemory(t: Tables, user: User)
    ensures Rows(t, user) == LegacyMemoryStorage.UserLinks(LegacyMemoryStorage.Forget(t), user)
  {
    LegacyMemoryStorage.ForgetKeys(t);
  }

  /** Marking a row deleted does not hide it from this GetUserLinks. */
  lemma RowsIgnoreDeleted(t: Tables, id: ID, user: User, owner: User)
    ensures Rows(DeleteLinkResult(t, id, user).0, owner) == Rows(t, owner)
  {
    var t' := DeleteLinkResult(t, id, user).0;
    assert t'.links.Keys == t.links.Keys;
    forall k | k in t.links ensures t'.links[k].user == t.links[k].user && t'.links[k].url == t.links[k].url
    {
    }
  }

  /** A link Add stored is what Get returns, when the query reaches the
      database. */
  lemma AddThenGet(t: Tables, url: URL, user: User, src: Entropy, f: Faults)
    requires AddResult(t, url, user, src, f).err.None?
    requires !Fails(AddResult(t, url, user, src, f).faults)
    ensures GetResult(AddResult(t, url, user, src, f).tables, AddResult(t, url, user, src, f).id,
                      AddResult(t, url, user, src, f).faults) == (url, None)
  {
  }

  /** A link Add stored is in its owner's rows. */
  lemma AddThenRows(t: Tables, url: URL, user: User, src: Entropy, f: Faults)
    requires AddResult(t, url, user, src, f).err.None?
    ensures Rows(AddResult(t, url, user, src, f).tables, user)
         == Rows(t, user) + {UserLink(AddResult(t, url, user, src, f).id, url)}
  {
    var o := AddResult(t, url, user, src, f);
    var added := UserLink(o.id, url);
    forall l | l in Rows(o.tables, user) ensures l in Rows(t, user) + {added}
    {
      var id :| id in o.tables.links && o.tables.links[id].user == user && l == UserLink(id, o.tables.links[id].url);
      if id != o.id {
        assert id in t.links;
      }
    }
    forall l | l in Rows(t, user) + {added} ensures l in Rows(o.tables, user)
    {
      if l != added {
        var id :| id in t.links && t.links[id].user == user && l == UserLink(id, t.links[id].url);
        assert o.tables.links[id] == t.links[id];
      } else {
        assert o.tables.links[o.id].user == user;
      }
    }
  }

  /** `s` lists the set `rows`: exactly its elements, no identifier twice. */
  ghost predicate Listing(s: seq<UserLink>, rows: set<UserLink>)
  {
    && (forall l | l in s :: l in rows)
    && (forall l | l in rows :: l in s)
    && (forall i, j | 0 <= i < j < |s| :: s[i].id != s[j].id)
  }

  /** The rows that reach the loop: all that were sent, or the first `cut`
      of them when the stream breaks earlier. */
  function Delivered(sent: seq<UserLink>, cut: Option<nat>): seq<UserLink>
  {
    if cut.Some? && cut.value < |sent| then sent[..cut.value] else sent
  }

  /** The read loop of GetUserLinks as written (psqlStorage.go:128-140):
      the delivered rows, and never an error. */
  function ReadRows(sent: seq<UserLink>, cut: Option<nat>): (seq<UserLink>, Option<Error>)
  {
    (Delivered(sent, cut), None)
  }

  /** The read loop followed by `if err := rows.Err(); err != nil`: a
      broken stream returns nil and the error. */
  function ReadRowsChecked(sent: seq<UserLink>, cut: Option<nat>): (seq<UserLink>, Option<Error>)
  {
    if cut.Some? then ([], Some(ErrConnection)) else (Delivered(sent, cut), None)
  }

  /** As written, a stream that breaks before its last row loses the rows
      after the break, and the caller still sees no error. */
  lemma ReadRowsTruncates(sent: seq<UserLink>, n: nat)
    requires n < |sent|
    requires forall i, j | 0 <= i < j < |sent| :: sent[i].id != sent[j].id
    ensures ReadRows(sent, Some(n)).1 == None
    ensures sent[n] !in ReadRows(sent, Some(n)).0
    ensures |ReadRows(sent, Some(n)).0| == n
  {
    var got := ReadRows(sent, Some(n)).0;
    assert got == sent[..n];
    forall i | 0 <= i < |got| ensures got[i] != sent[n]
    {
      assert got[i] == sent[i];
    }
  }

  /** A concrete case: an owner with two rows, a stream that breaks after
      the first, and a nil error with one row missing. */
  lemma ReadRowsLosesRow()
    ensures var sent := [UserLink("aaaaaa", "u1"), UserLink("bbbbbb", "u2")];
            ReadRows(sent, Some(1)) == ([sent[0]], None) && sent[1] !in ReadRows(sent, Some(1)).0
  {
    var sent := [UserLink("aaaaaa", "u1"), UserLink("bbbbbb", "u2")];
    assert sent[..1] == [sent[0]];
  }

  /** With the rows.Err() check, a nil error means the stream delivered
      every row that was sent, and a broken stream is always reported. */
  lemma ReadRowsCheckedComplete(sent: seq<UserLink>, cut: Option<nat>)
    ensures ReadRowsChecked(sent, cut).1.None? <==> cut.None?
    ensures ReadRowsChecked(sent, cut).1.None? ==> ReadRowsChecked(sent, cut).0 == sent
    ensures ReadRowsChecked(sent, cut).1.Some? ==> ReadRowsChecked(sent, cut).0 == []
  {
  }

  /** The check changes nothing when the stream does not break: both loops
      return every row. */
  lemma ReadRowsAgree(sent: seq<UserLink>)
    ensures ReadRows(sent, None) == ReadRowsChecked(sent, None) == (sent, None)
  {
  }

  class PgxStorage {
    const db: Database

    /** NewPsqlStorage after the pool is open and the migrations ran. */
    constructor(database: Database)
      ensures db == database
    {
      db := database;
    }

    /** Add: draw an identifier, insert with ON CONFLICT (id) DO NOTHING,
        and repeat while no row was affected. */
    method Add(url: URL, user: User, src: Entropy) returns (id: ID, err: Option<Error>, rest: Entropy)
      modifies db
      ensures PgAddOutcome(db.table, id, err, rest, db.faults) == AddResult(old(db.table), url, user, src, old(db.faults))
    {
      var cur := src;
      while true
        invariant db.table == old(db.table)
        invariant AddResult(old(db.table), url, user, src, old(db.faults)) == AddResult(db.table, url, user, cur, db.faults)
        decreases |cur|
      {
        var prev := cur;
        var e;
        id, e, cur := GenRandomID(prev);
        if e.Some? {
          return [], e, [];
        }
        GenerateValid(prev);
        var affected, execErr := db.ExecInsert(id, url, user);
        if execErr == Some(ErrUniqueViolation) {
          var found, queryErr := db.QueryIdByUrl(url);
          if queryErr.Some? {
            return [], queryErr, cur;
          }
          return found, Some(ErrURLAlreadyExists), cur;
        }
        if execErr.Some? {
          return [], execErr, cur;
        }
        if affected == 1 {
          break;
        }
      }
      return id, None, cur;
    }

    method Get(id: ID) returns (url: URL, err: Option<Error>)
      modifies db
      ensures (url, err) == GetResult(old(db.table), id, old(db.faults))
      ensures db.table == old(db.table) && db.faults == Next(old(db.faults))
    {
      var failed := Fails(db.faults);
      db.faults := Next(db.faults);
      if failed {
        return [], Some(ErrConnection);
      }
      if id !in db.table.links {
        return [], Some(ErrNoRows);
      }
      return db.table.links[id].url, None;
    }

    /** The rows the server sends for SELECT id, url FROM links WHERE
        user_id = $1: every row of the owner, each once, in an order the
        model leaves open. */
    method SendRows(user: User) returns (sent: seq<UserLink>)
      ensures Listing(sent, Rows(db.table, user))
    {
      var links := db.table.links;
      sent := [];
      var todo := links.Keys;
      while todo != {}
        invariant links == db.table.links
        invariant todo <= links.Keys
        invariant forall l | l in sent :: l in Rows(db.table, user) && l.id !in todo
        invariant forall k | k in links.Keys - todo :: links[k].user == user ==> UserLink(k, links[k].url) in sent
        invariant forall i, j | 0 <= i < j < |sent| :: sent[i].id != sent[j].id
        decreases |todo|
      {
        var id :| id in todo;
        todo := todo - {id};
        if links[id].user == user {
          sent := sent + [UserLink(id, links[id].url)];
        }
      }
    }

    /** The `for rows.Next()` loop: append each row that arrives until the
        rows run out or the stream breaks after `cut` rows. */
    static method ReadLoop(sent: seq<UserLink>, cut: Option<nat>) returns (data: seq<UserLink>)
      ensures data == Delivered(sent, cut)
    {
      data := [];
      var i := 0;
      while i < |sent| && (cut.None? || i < cut.value)
        invariant 0 <= i <= |sent|
        invariant data == sent[..i]
        invariant cut.Some? ==> i <= cut.value
      {
        data := data + [sent[i]];
        i := i + 1;
      }
      assert i == |Delivered(sent, cut)|;
    }

    /** GetUserLinks as written: a failed query returns nil and the error;
        otherwise the rows that arrived, and no error even when the stream
        broke after `cut` rows, because the loop never asks rows.Err(). */
    method GetUserLinks(user: User, cut: Option<nat>) returns (data: seq<UserLink>, err: Option<Error>, ghost sent: seq<UserLink>)
      modifies db
      ensures db.table == old(db.table) && db.faults == Next(old(db.faults))
      ensures Fails(old(db.faults)) ==> data == [] && err == Some(ErrConnection)
      ensures !Fails(old(db.faults)) ==> Listing(sent, Rows(db.table, user)) && (data, err) == ReadRows(sent, cut)
      ensures err.Some? <==> Fails(old(db.faults))
      ensures forall l | l in data :: l in Rows(db.table, user)
      ensures cut.None? && err.None? ==> forall l | l in Rows(db.table, user) :: l in data
      ensures forall i, j | 0 <= i < j < |data| :: data[i].id != data[j].id
    {
      var failed := Fails(db.faults);
      db.faults := Next(db.faults);
      if failed {
        return [], Some(ErrConnection), [];
      }
      var rows := SendRows(user);
      sent := rows;
      data := ReadLoop(rows, cut);
      err := None;
    }

    /** GetUserLinks with the rows.Err() check after the loop: a stream that
        broke is an error, so a nil error means every row of the owner. */
    method GetUserLinksChecked(user: User, cut: Option<nat>) returns (data: seq<UserLink>, err: Option<Error>, ghost sent: seq<UserLink>)
      modifies db
      ensures db.table == old(db.table) && db.faults == Next(old(db.faults))
      ensures Fails(old(db.faults)) ==> data == [] && err == Some(ErrConnection)
      ensures !Fails(old(db.faults)) ==> Listing(sent, Rows(db.table, user)) && (data, err) == ReadRowsChecked(sent, cut)
      ensures err.Some? <==> Fails(old(db.faults)) || cut.Some?
      ensures err.Some? ==> err == Some(ErrConnection) && data == []
      ensures err.None? ==> Listing(data, Rows(db.table, user))
    {
      var failed := Fails(db.faults);
      db.faults := Next(db.faults);
      if failed {
        return [], Some(ErrConnection), [];
      }
      var rows := SendRows(user);
      sent := rows;
      data := ReadLoop(rows, cut);
      if cut.Some? {
        return [], Some(ErrConnection), sent;
      }
      err := None;
    }

    /** Pool: whether a ping reaches the database. */
    method Pool() returns (ok: bool)
      modifies db
      ensures ok <==> !Fails(old(db.faults))
      ensures db.table == old(db.table) && db.faults == Next(old(db.faults))
    {
      ok := !Fails(db.faults);
      db.faults := Next(db.faults);
    }
  }
}
