/** The first in-memory backend (repositories.MemStorage in
    memoryStorage.go): the same two maps as the current one, but its records
    carry only the URL and the owner, there is no delete, and GetUserLinks
    reports every record of the owner. */
module LegacyMemoryStorage {
  import opened Types
  import opened IdGen
  import MemoryStorage

  /** The LinkData of this version: no identifier, no deleted flag. */
  datatype Record = Record(url: URL, user: User)

  datatype Tables = Tables(existingURLs: map<URL, ID>, links: map<ID, Record>)

  const Empty := Tables(map[], map[])

  datatype AddOutcome = AddOutcome(tables: Tables, id: ID, err: Option<Error>, rest: Entropy)

  /** Add: a known URL returns its identifier with ErrURLAlreadyExists;
      otherwise identifiers are drawn until one is not a key, and both maps
      are written. A failed draw returns "" and the error. */
  function AddResult(t: Tables, url: URL, user: User, src: Entropy): (o: AddOutcome)
    ensures url in t.existingURLs ==> o == AddOutcome(t, t.existingURLs[url], Some(ErrURLAlreadyExists), src)
    ensures o.err.None? ==>
              url !in t.existingURLs && o.id !in t.links && ValidId(o.id)
              && o.tables == Tables(t.existingURLs[url := o.id], t.links[o.id := Record(url, user)])
    ensures o.err.Some? ==> o.tables == t
    ensures o.err.Some? && o.err != Some(ErrURLAlreadyExists) ==> o.err == Some(ErrEntropy) && o.id == []
  {
    if url in t.existingURLs then AddOutcome(t, t.existingURLs[url], Some(ErrURLAlreadyExists), src)
    else
      var g := GenerateUnused(t.links.Keys, src);
      if g.None? then AddOutcome(t, [], Some(ErrEntropy), [])
      else AddOutcome(Tables(t.existingURLs[url := g.value.0], t.links[g.value.0 := Record(url, user)]),
                      g.value.0, None, g.value.1)
  }

  /** Get: the stored URL, or ("", ErrURLNotFound). */
  function Lookup(t: Tables, id: ID): (r: (URL, Option<Error>))
  {
    if id in t.links then (t.links[id].url, None) else ([], Some(ErrURLNotFound))
  }

  /** GetUserLinks: every record of the owner, with its identifier. */
  function UserLinks(t: Tables, user: User): set<UserLink>
  {
    set id | id in t.links && t.links[id].user == user :: UserLink(id, t.links[id].url)
  }

  /** The current backend's maps with the deleted flags and the records'
      empty id fields forgotten. */
  function Forget(t: MemoryStorage.Tables): Tables
  {
    Tables(t.existingURLs, map id | id in t.links :: Record(t.links[id].url, t.links[id].user))
  }

  lemma ForgetKeys(t: MemoryStorage.Tables)
    ensures Forget(t).links.Keys == t.links.Keys && Forget(t).existingURLs == t.existingURLs
  {
  }

  lemma ForgetInsert(t: MemoryStorage.Tables, id: ID, url: URL, user: User)
    ensures Forget(MemoryStorage.Tables(t.existingURLs[url := id], t.links[id := LinkData([], url, user, false)]))
         == Tables(Forget(t).existingURLs[url := id], Forget(t).links[id := Record(url, user)])
  {
    var lhs := Forget(MemoryStorage.Tables(t.existingURLs[url := id], t.links[id := LinkData([], url, user, false)]));
    var rhs := Tables(Forget(t).existingURLs[url := id], Forget(t).links[id := Record(url, user)]);
    assert lhs.links.Keys == rhs.links.Keys;
  }

  /** Add of this version is Add of the current one, read through Forget. */
  lemma AddRefinedByCurrent(t: MemoryStorage.Tables, url: URL, user: User, src: Entropy)
    ensures Forget(MemoryStorage.AddLinkResult(t, url, user, src).tables) == AddResult(Forget(t), url, user, src).tables
    ensures MemoryStorage.AddLinkResult(t, url, user, src).id == AddResult(Forget(t), url, user, src).id
    ensures MemoryStorage.AddLinkResult(t, url, user, src).err == AddResult(Forget(t), url, user, src).err
  {
    ForgetKeys(t);
    if url !in t.existingURLs {
      var g := GenerateUnused(t.links.Keys, src);
      if g.Some? {
        ForgetInsert(t, g.value.0, url, user);
      }
    }
  }

  /** Without deleted records the current GetUserLinks reports what this
      version reports. */
  lemma UserLinksRefinedByCurrent(t: MemoryStorage.Tables, user: User)
    requires forall id | id in t.links :: !t.links[id].deleted
    ensures UserLinks(Forget(t), user)
         == set l | l in MemoryStorage.UserLinks(t, user) :: UserLink(l.id, l.url)
  {
    var lhs := UserLinks(Forget(t), user);
    var rhs := set l | l in MemoryStorage.UserLinks(t, user) :: UserLink(l.id, l.url);
    forall l | l in lhs ensures l in rhs
    {
      var id :| id in Forget(t).links && Forget(t).links[id].user == user && l == UserLink(id, Forget(t).links[id].url);
      var full := LinkData(id, t.links[id].url, user, false);
      assert full in MemoryStorage.UserLinks(t, user);
    }
    forall l | l in rhs ensures l in lhs
    {
      var full :| full in MemoryStorage.UserLinks(t, user) && l == UserLink(full.id, full.url);
      var id := full.id;
      assert t.links[id].user == user && full.url == t.links[id].url;
      assert Forget(t).links[id] == Record(full.url, user);
    }
  }

  /** A stored link is found, and no other identifier changes its answer. */
  lemma AddThenLookup(t: Tables, url: URL, user: User, src: Entropy, other: ID)
    requires AddResult(t, url, user, src).err.None?
    ensures Lookup(AddResult(t, url, user, src).tables, AddResult(t, url, user, src).id) == (url, None)
    ensures other != AddResult(t, url, user, src).id ==>
              Lookup(AddResult(t, url, user, src).tables, other) == Lookup(t, other)
  {
  }

  /** Adding a link adds exactly that link to its owner's list. */
  lemma AddShowsLink(t: Tables, url: URL, user: User, src: Entropy)
    requires AddResult(t, url, user, src).err.None?
    ensures UserLinks(AddResult(t, url, user, src).tables, user)
         == UserLinks(t, user) + {UserLink(AddResult(t, url, user, src).id, url)}
  {
    var o := AddResult(t, url, user, src);
    var added := UserLink(o.id, url);
    forall l | l in UserLinks(o.tables, user) ensures l in UserLinks(t, user) + {added}
    {
      var id :| id in o.tables.links && o.tables.links[id].user == user && l == UserLink(id, o.tables.links[id].url);
      if id != o.id {
        assert id in t.links;
      }
    }
    forall l | l in UserLinks(t, user) + {added} ensures l in UserLinks(o.tables, user)
    {
      if l != added {
        var id :| id in t.links && t.links[id].user == user && l == UserLink(id, t.links[id].url);
        assert o.tables.links[id] == t.links[id];
      } else {
        assert o.tables.links[o.id] == Record(url, user);
      }
    }
  }

  class MemStorage {
    var existingURLs: map<URL, ID>
    var idLinkDataDictionary: map<ID, Record>

    function State(): Tables
      reads this
    {
      Tables(existingURLs, idLinkDataDictionary)
    }

    /** NewMemoryStorage. */
    constructor()
      ensures State() == Empty
    {
      existingURLs := map[];
      idLinkDataDictionary := map[];
    }

    method Add(url: URL, user: User, src: Entropy) returns (id: ID, err: Option<Error>, rest: Entropy)
      modifies this
      ensures AddOutcome(State(), id, err, rest) == AddResult(old(State()), url, user, src)
    {
      if url in existingURLs {
        return existingURLs[url], Some(ErrURLAlreadyExists), src;
      }
      var taken := idLinkDataDictionary.Keys;
      var cur := src;
      var collides := true;
      id := [];
      while collides
        invariant taken == idLinkDataDictionary.Keys && State() == old(State())
        invariant collides ==> GenerateUnused(taken, cur) == GenerateUnused(taken, src)
        invariant !collides ==> GenerateUnused(taken, src) == Some((id, cur))
        decreases |cur| + if collides then 1 else 0
      {
        var e, prev := None, cur;
        id, e, cur := GenRandomID(prev);
        if e.Some? {
          return [], e, [];
        }
        GenerateValid(prev);
        collides := id in idLinkDataDictionary;
      }
      idLinkDataDictionary := idLinkDataDictionary[id := Record(url, user)];
      existingURLs := existingURLs[url := id];
      return id, None, cur;
    }

    method Get(id: ID) returns (url: URL, err: Option<Error>)
      ensures (url, err) == Lookup(State(), id)
    {
      if id in idLinkDataDictionary {
        return idLinkDataDictionary[id].url, None;
      }
      return [], Some(ErrURLNotFound);
    }

    /** GetUserLinks: the owner's records, each once, in the map's iteration
        order (which the model leaves open). */
    method GetUserLinks(user: User) returns (data: seq<UserLink>, err: Option<Error>)
      ensures err.None?
      ensures forall l | l in data :: l in UserLinks(State(), user)
      ensures forall l | l in UserLinks(State(), user) :: l in data
      ensures forall i, j | 0 <= i < j < |data| :: data[i].id != data[j].id
    {
      data := [];
      var todo := idLinkDataDictionary.Keys;
      while todo != {}
        invariant todo <= idLinkDataDictionary.Keys
        invariant forall l | l in data :: l in UserLinks(State(), user) && l.id !in todo
        invariant forall k | k in idLinkDataDictionary.Keys - todo ::
                    idLinkDataDictionary[k].user == user ==> UserLink(k, idLinkDataDictionary[k].url) in data
        invariant forall i, j | 0 <= i < j < |data| :: data[i].id != data[j].id
        decreases |todo|
      {
        var id :| id in todo;
        var value := idLinkDataDictionary[id];
        todo := todo - {id};
        if value.user == user {
          data := data + [UserLink(id, value.url)];
        }
      }
      return data, None;
    }

    method Pool() returns (ok: bool)
      ensures ok
    {
      return true;
    }
  }
}
