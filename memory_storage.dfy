/** The in-memory backend (memory.MemStorage): links kept in two maps, one
    from URL to identifier for deduplication and one from identifier to the
    stored record. The state functions below are the reference the other
    backends are proved against. */
module MemoryStorage {
  import opened Types
  import opened IdGen

  /** The two maps of a MemStorage. */
  datatype Tables = Tables(existingURLs: map<URL, ID>, links: map<ID, LinkData>)

  const Empty := Tables(map[], map[])

  /** The maps agree: every URL names a record holding that URL, and every
      record is what its URL names. AddLink and DeleteUserLink keep this. */
  predicate Consistent(t: Tables)
  {
    (forall u | u in t.existingURLs ::
       t.existingURLs[u] in t.links && t.links[t.existingURLs[u]].url == u)
    && (forall id | id in t.links ::
          t.links[id].url in t.existingURLs && t.existingURLs[t.links[id].url] == id)
  }

  /** The outcome of AddLink: the new maps, the identifier, the error and
      what is left of the random source. */
  datatype AddOutcome = AddOutcome(tables: Tables, id: ID, err: Option<Error>, rest: Entropy)

  /** What AddLink does: a known URL returns its identifier with
      ErrURLAlreadyExists; otherwise identifiers are drawn until one is not a
      key of the records, and the record {url, user, not deleted} is stored
      under it (the record's own id field is left empty, as in the source). A
      failed draw returns "" and the error. */
  function AddLinkResult(t: Tables, url: URL, user: User, src: Entropy): (o: AddOutcome)
    ensures url in t.existingURLs ==>
              o == AddOutcome(t, t.existingURLs[url], Some(ErrURLAlreadyExists), src)
    ensures o.err.None? ==>
              o.id !in t.links && ValidId(o.id)
              && o.tables.links == t.links[o.id := LinkData([], url, user, false)]
              && o.tables.existingURLs == t.existingURLs[url := o.id]
    ensures o.err == Some(ErrEntropy) ==> o.tables == t && o.id == []
    ensures o.err.None? || o.err == Some(ErrEntropy) || o.err == Some(ErrURLAlreadyExists)
  {
    if url in t.existingURLs then AddOutcome(t, t.existingURLs[url], Some(ErrURLAlreadyExists), src)
    else
      var g := GenerateUnused(t.links.Keys, src);
      if g.None? then AddOutcome(t, [], Some(ErrEntropy), [])
      else
        var id := g.value.0;
        AddOutcome(Tables(t.existingURLs[url := id], t.links[id := LinkData([], url, user, false)]),
                   id, None, g.value.1)
  }

  /** What Get answers: the URL and deleted flag of a known identifier, or
      ("", false, ErrURLNotFound). */
  function Lookup(t: Tables, id: ID): (r: (URL, bool, Option<Error>))
  {
    if id in t.links then (t.links[id].url, t.links[id].deleted, None)
    else ([], false, Some(ErrURLNotFound))
  }

  /** The records GetUserLinks reports for user: those it owns that are not
      deleted, each carrying its identifier. */
  function UserLinks(t: Tables, user: User): (links: set<LinkData>)
    ensures forall l | l in links :: l.user == user && !l.deleted && l.id in t.links
  {
    set id | id in t.links && t.links[id].user == user && !t.links[id].deleted
      :: LinkData(id, t.links[id].url, user, false)
  }

  /** The distinct owners of all records, deleted ones included. */
  function Owners(t: Tables): set<User>
  {
    set id | id in t.links :: t.links[id].user
  }

  /** What DeleteUserLink does: only the owner of a known record can mark it
      deleted; the answer says whether it did. */
  function DeleteLinkResult(t: Tables, id: ID, user: User): (r: (Tables, bool))
    ensures r.1 <==> id in t.links && t.links[id].user == user
    ensures !r.1 ==> r.0 == t
    ensures r.1 ==> r.0 == Tables(t.existingURLs, t.links[id := t.links[id].(deleted := true)])
  {
    if id !in t.links || t.links[id].user != user then (t, false)
    else (Tables(t.existingURLs, t.links[id := t.links[id].(deleted := true)]), true)
  }

  /** DeleteUserLinks: DeleteUserLink for each identifier in turn. */
  function DeleteAll(t: Tables, ids: seq<ID>, user: User): Tables
    decreases |ids|
  {
    if ids == [] then t else DeleteAll(DeleteLinkResult(t, ids[0], user).0, ids[1..], user)
  }

  lemma {:induction false} DeleteAllSnoc(t: Tables, ids: seq<ID>, id: ID, user: User)
    ensures DeleteAll(t, ids + [id], user) == DeleteLinkResult(DeleteAll(t, ids, user), id, user).0
    decreases |ids|
  {
    if ids == [] {
      assert ids + [id] == [id];
    } else {
      assert (ids + [id])[1..] == ids[1..] + [id];
      DeleteAllSnoc(DeleteLinkResult(t, ids[0], user).0, ids[1..], id, user);
    }
  }

  // ---------------------------------------------------------------------
  // Properties of the state functions

  lemma EmptyConsistent()
    ensures Consistent(Empty)
  {
  }

  /** A successful add keeps the two maps in agreement. */
  lemma AddLinkConsistent(t: Tables, url: URL, user: User, src: Entropy)
    requires Consistent(t)
    ensures Consistent(AddLinkResult(t, url, user, src).tables)
  {
    var o := AddLinkResult(t, url, user, src);
    if o.err.None? {
      var t' := o.tables;
      assert url !in t.existingURLs;
      forall u | u in t'.existingURLs
        ensures t'.existingURLs[u] in t'.links && t'.links[t'.existingURLs[u]].url == u
      {
        if u != url {
          assert t.existingURLs[u] in t.links;
        }
      }
      forall id | id in t'.links
        ensures t'.links[id].url in t'.existingURLs && t'.existingURLs[t'.links[id].url] == id
      {
        if id != o.id {
          assert t.links[id].url != url;
        }
      }
    }
  }

  /** Deleting only flips a flag, so the maps stay in agreement. */
  lemma DeleteLinkConsistent(t: Tables, id: ID, user: User)
    requires Consistent(t)
    ensures Consistent(DeleteLinkResult(t, id, user).0)
  {
  }

  lemma {:induction false} DeleteAllConsistent(t: Tables, ids: seq<ID>, user: User)
    requires Consistent(t)
    ensures Consistent(DeleteAll(t, ids, user))
    decreases |ids|
  {
    if ids != [] {
      DeleteLinkConsistent(t, ids[0], user);
      DeleteAllConsistent(DeleteLinkResult(t, ids[0], user).0, ids[1..], user);
    }
  }

  /** After a successful add, Get of the new identifier answers the URL, not
      deleted, no error; every other identifier answers as before. */
  lemma AddThenLookup(t: Tables, url: URL, user: User, src: Entropy, other: ID)
    requires AddLinkResult(t, url, user, src).err.None?
    ensures Lookup(AddLinkResult(t, url, user, src).tables, AddLinkResult(t, url, user, src).id)
         == (url, false, None)
    ensures other != AddLinkResult(t, url, user, src).id ==>
              Lookup(AddLinkResult(t, url, user, src).tables, other) == Lookup(t, other)
  {
  }

  /** Adding the same URL twice gives the same identifier the second time,
      with ErrURLAlreadyExists, whoever asks and whatever the source. */
  lemma AddTwice(t: Tables, url: URL, user: User, src: Entropy, user2: User, src2: Entropy)
    requires AddLinkResult(t, url, user, src).err.None?
    ensures AddLinkResult(AddLinkResult(t, url, user, src).tables, url, user2, src2)
         == AddOutcome(AddLinkResult(t, url, user, src).tables, AddLinkResult(t, url, user, src).id,
                       Some(ErrURLAlreadyExists), src2)
  {
  }

  /** A record stored under a new identifier adds one URL to the count and
      its owner to the owners. */
  lemma InsertCounts(t: Tables, existing: map<URL, ID>, id: ID, d: LinkData)
    requires id !in t.links
    ensures |t.links[id := d]| == |t.links| + 1
    ensures Owners(Tables(existing, t.links[id := d])) == Owners(t) + {d.user}
  {
    var t' := Tables(existing, t.links[id := d]);
    forall v | v in Owners(t')
      ensures v in Owners(t) + {d.user}
    {
      var k :| k in t'.links && t'.links[k].user == v;
      if k != id {
        assert t.links[k].user == v;
      }
    }
    forall v | v in Owners(t) + {d.user}
      ensures v in Owners(t')
    {
      if v == d.user {
        assert t'.links[id].user == v;
      } else {
        var k :| k in t.links && t.links[k].user == v;
        assert t'.links[k].user == v;
      }
    }
  }

  /** A successful add stores a new record under a new identifier: one more
      URL in the statistics. */
  lemma AddCounts(t: Tables, url: URL, user: User, src: Entropy)
    requires AddLinkResult(t, url, user, src).err.None?
    ensures |AddLinkResult(t, url, user, src).tables.links| == |t.links| + 1
    ensures Owners(AddLinkResult(t, url, user, src).tables) == Owners(t) + {user}
  {
    var o := AddLinkResult(t, url, user, src);
    InsertCounts(t, o.tables.existingURLs, o.id, LinkData([], url, user, false));
    assert o.tables == Tables(o.tables.existingURLs, t.links[o.id := LinkData([], url, user, false)]);
  }

  /** A delete by someone other than the owner, or of an unknown identifier,
      changes nothing. */
  lemma DeleteForeignNoop(t: Tables, id: ID, user: User)
    requires id !in t.links || t.links[id].user != user
    ensures DeleteLinkResult(t, id, user) == (t, false)
  {
  }

  /** Deleting twice is deleting once; the second delete still reports true. */
  lemma DeleteIdempotent(t: Tables, id: ID, user: User)
    ensures DeleteLinkResult(DeleteLinkResult(t, id, user).0, id, user).0 == DeleteLinkResult(t, id, user).0
  {
    var r := DeleteLinkResult(t, id, user);
    if r.1 {
      assert r.0.links[id].(deleted := true) == r.0.links[id];
      assert r.0.links[id := r.0.links[id]] == r.0.links;
    }
  }

  /** A deleted record keeps its URL, owner and identifier: Get reports it
      deleted, and adding its URL again still returns the old identifier. */
  lemma DeletedStillDeduplicates(t: Tables, id: ID, user: User, src: Entropy)
    requires Consistent(t)
    requires id in t.links && t.links[id].user == user
    ensures Lookup(DeleteLinkResult(t, id, user).0, id) == (t.links[id].url, true, None)
    ensures AddLinkResult(DeleteLinkResult(t, id, user).0, t.links[id].url, user, src).id == id
    ensures AddLinkResult(DeleteLinkResult(t, id, user).0, t.links[id].url, user, src).err
         == Some(ErrURLAlreadyExists)
  {
  }

  /** Deleting leaves the statistics alone: deleted records still count. */
  lemma DeleteKeepsStats(t: Tables, id: ID, user: User)
    ensures |DeleteLinkResult(t, id, user).0.links| == |t.links|
    ensures Owners(DeleteLinkResult(t, id, user).0) == Owners(t)
  {
    var r := DeleteLinkResult(t, id, user);
    if r.1 {
      assert r.0.links.Keys == t.links.Keys;
      forall v | v in Owners(t) ensures v in Owners(r.0)
      {
        var k :| k in t.links && t.links[k].user == v;
        assert r.0.links[k].user == v;
      }
      forall v | v in Owners(r.0) ensures v in Owners(t)
      {
        var k :| k in r.0.links && r.0.links[k].user == v;
        assert t.links[k].user == v;
      }
    }
  }

  /** A deleted record leaves its owner's link list. */
  lemma DeleteHidesLink(t: Tables, id: ID, user: User)
    requires id in t.links && t.links[id].user == user
    ensures UserLinks(DeleteLinkResult(t, id, user).0, user)
         == UserLinks(t, user) - {LinkData(id, t.links[id].url, user, false)}
  {
    var t' := DeleteLinkResult(t, id, user).0;
    var gone := LinkData(id, t.links[id].url, user, false);
    forall l | l in UserLinks(t', user) ensures l in UserLinks(t, user) - {gone}
    {
      var k :| k in t'.links && t'.links[k].user == user && !t'.links[k].deleted
             && l == LinkData(k, t'.links[k].url, user, false);
      assert k != id;
    }
    forall l | l in UserLinks(t, user) - {gone} ensures l in UserLinks(t', user)
    {
      var k :| k in t.links && t.links[k].user == user && !t.links[k].deleted
             && l == LinkData(k, t.links[k].url, user, false);
      assert k != id;
      assert t'.links[k] == t.links[k];
    }
  }

  /** A record stored under a new identifier joins its owner's link list. */
  lemma InsertShowsLink(t: Tables, t': Tables, id: ID, url: URL, user: User)
    requires id !in t.links
    requires t'.links == t.links[id := LinkData([], url, user, false)]
    ensures UserLinks(t', user) == UserLinks(t, user) + {LinkData(id, url, user, false)}
  {
    var added := LinkData(id, url, user, false);
    forall l | l in UserLinks(t', user) ensures l in UserLinks(t, user) + {added}
    {
      var k :| k in t'.links && t'.links[k].user == user && !t'.links[k].deleted
             && l == LinkData(k, t'.links[k].url, user, false);
      if k != id {
        assert t.links[k] == t'.links[k];
      }
    }
    forall l | l in UserLinks(t, user) + {added} ensures l in UserLinks(t', user)
    {
      if l != added {
        var k :| k in t.links && t.links[k].user == user && !t.links[k].deleted
               && l == LinkData(k, t.links[k].url, user, false);
        assert t'.links[k] == t.links[k];
      } else {
        assert t'.links[id].user == user && !t'.links[id].deleted && t'.links[id].url == url;
      }
    }
  }

  /** A fresh add shows up in its owner's link list. */
  lemma AddShowsLink(t: Tables, url: URL, user: User, src: Entropy)
    requires AddLinkResult(t, url, user, src).err.None?
    ensures UserLinks(AddLinkResult(t, url, user, src).tables, user)
         == UserLinks(t, user) + {LinkData(AddLinkResult(t, url, user, src).id, url, user, false)}
  {
    var o := AddLinkResult(t, url, user, src);
    InsertShowsLink(t, o.tables, o.id, url, user);
  }

  // ---------------------------------------------------------------------
  // The storage object

  class MemStorage {
    var existingURLs: map<URL, ID>
    var idLinkDataDictionary: map<ID, LinkData>

    function State(): Tables
      reads this
    {
      Tables(existingURLs, idLinkDataDictionary)
    }

    /** NewMemoryStorage: both maps empty. */
    constructor()
      ensures State() == Empty
    {
      existingURLs := map[];
      idLinkDataDictionary := map[];
    }

    /** AddLink: deduplicate by URL, then draw identifiers until one is not
        a key of the records. */
    method AddLink(url: URL, user: User, src: Entropy) returns (id: ID, err: Option<Error>, rest: Entropy)
      modifies this
      ensures AddOutcome(State(), id, err, rest) == AddLinkResult(old(State()), url, user, src)
    {
      if url in existingURLs {
        return existingURLs[url], Some(ErrURLAlreadyExists), src;
      }
      var taken := idLinkDataDictionary.Keys;
      var cur := src;
      var collides := true;
      id := [];
      while collides
        invariant taken == idLinkDataDictionary.Keys && State() == old(State())
        invariant collides ==> GenerateUnused(taken, cur) == GenerateUnused(taken, src)
        invariant !collides ==> GenerateUnused(taken, src) == Some((id, cur))
        decreases |cur| + if collides then 1 else 0
      {
        var e, prev := None, cur;
        id, e, cur := GenRandomID(prev);
        if e.Some? {
          return [], e, [];
        }
        GenerateValid(prev);
        collides := id in idLinkDataDictionary;
      }
      idLinkDataDictionary := idLinkDataDictionary[id := LinkData([], url, user, false)];
      existingURLs := existingURLs[url := id];
      return id, None, cur;
    }

    /** Add: the context-taking entry point of the Storager interface. */
    method Add(url: URL, user: User, src: Entropy) returns (id: ID, err: Option<Error>, rest: Entropy)
      modifies this
      ensures AddOutcome(State(), id, err, rest) == AddLinkResult(old(State()), url, user, src)
    {
      id, err, rest := AddLink(url, user, src);
    }

    /** Get: the URL and deleted flag stored under id, or ErrURLNotFound. */
    method Get(id: ID) returns (url: URL, deleted: bool, err: Option<Error>)
      ensures (url, deleted, err) == Lookup(State(), id)
    {
      if id in idLinkDataDictionary {
        var data := idLinkDataDictionary[id];
        return data.url, data.deleted, None;
      }
      return [], false, Some(ErrURLNotFound);
    }

    /** GetUserLinks: the user's records that are not deleted, each once, in
        the map's iteration order (which the model leaves open). */
    method GetUserLinks(user: User) returns (data: seq<LinkData>, err: Option<Error>)
      ensures err.None?
      ensures forall l | l in data :: l in UserLinks(State(), user)
      ensures forall l | l in UserLinks(State(), user) :: l in data
      ensures forall i, j | 0 <= i < j < |data| :: data[i].id != data[j].id
    {
      data := [];
      var todo := idLinkDataDictionary.Keys;
      while todo != {}
        invariant todo <= idLinkDataDictionary.Keys
        invariant forall l | l in data :: l in UserLinks(State(), user) && l.id !in todo
        invariant forall k | k in idLinkDataDictionary.Keys - todo ::
                    idLinkDataDictionary[k].user == user && !idLinkDataDictionary[k].deleted ==>
                      LinkData(k, idLinkDataDictionary[k].url, user, false) in data
        invariant forall i, j | 0 <= i < j < |data| :: data[i].id != data[j].id
        decreases |todo|
      {
        var id :| id in todo;
        var value := idLinkDataDictionary[id];
        todo := todo - {id};
        if value.user == user && !value.deleted {
          data := data + [LinkData(id, value.url, user, false)];
        }
      }
      return data, None;
    }

    /** DeleteUserLink: mark the record deleted when user owns it. */
    method DeleteUserLink(id: ID, user: User) returns (ok: bool)
      modifies this
      ensures (State(), ok) == DeleteLinkResult(old(State()), id, user)
    {
      if id !in idLinkDataDictionary {
        return false;
      }
      var link := idLinkDataDictionary[id];
      if link.user != user {
        return false;
      }
      link := link.(deleted := true);
      idLinkDataDictionary := idLinkDataDictionary[id := link];
      return true;
    }

    /** DeleteUserLinks: DeleteUserLink for each identifier, answers ignored. */
    method DeleteUserLinks(ids: seq<ID>, user: User) returns (err: Option<Error>)
      modifies this
      ensures State() == DeleteAll(old(State()), ids, user)
      ensures err.None?
    {
      var i := 0;
      while i < |ids|
        invariant 0 <= i <= |ids|
        invariant State() == DeleteAll(old(State()), ids[..i], user)
      {
        DeleteAllSnoc(old(State()), ids[..i], ids[i], user);
        assert ids[..i + 1] == ids[..i] + [ids[i]];
        var _ := DeleteUserLink(ids[i], user);
        i := i + 1;
      }
      assert ids[..i] == ids;
      return None;
    }

    /** GetStats: the number of records, deleted ones included, and of
        distinct owners. */
    method GetStats() returns (stats: ServiceStats, err: Option<Error>)
      ensures stats == ServiceStats(|idLinkDataDictionary|, |Owners(State())|)
      ensures err.None?
    {
      var users: set<User> := {};
      var todo := idLinkDataDictionary.Keys;
      while todo != {}
        invariant todo <= idLinkDataDictionary.Keys
        invariant users == set k | k in idLinkDataDictionary.Keys - todo :: idLinkDataDictionary[k].user
        decreases |todo|
      {
        var id :| id in todo;
        users := users + {idLinkDataDictionary[id].user};
        todo := todo - {id};
      }
      assert idLinkDataDictionary.Keys - todo == idLinkDataDictionary.Keys;
      return ServiceStats(|idLinkDataDictionary|, |users|), None;
    }

    /** Pool: there is no connection to check. */
    method Pool() returns (ok: bool)
      ensures ok
    {
      return true;
    }

    /** Close: nothing to release. */
    method Close() returns (err: Option<Error>)
      ensures err.None?
    {
      return None;
    }
  }
}
