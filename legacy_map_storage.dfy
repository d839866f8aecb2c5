/** The map-typed shortener of storage/storage.go: Storage is a Go map from
    identifier to URL, so its value-receiver methods change the one map the
    caller holds; here it is a class with that map as its field. There is no
    URL deduplication and no owner. */
module LegacyMapStorage {
  import opened Types
  import opened IdGen
  import opened MathRandId
  import opened UrlMap

  class Storage {
    var st: map<ID, URL>

    /** NewStorage: an empty map. */
    constructor()
      ensures st == map[]
    {
      st := map[];
    }

    /** Add: build identifiers of IdLength characters until one is not a
        key, then store the URL under it. The draws must let the loop end. */
    method Add(url: URL, draws: Draws) returns (id: ID, rest: Draws)
      requires Mint(st.Keys, draws).Some?
      modifies this
      ensures (id, rest) == Mint(old(st).Keys, draws).value
      ensures id !in old(st) && ValidId(id)
      ensures st == old(st)[id := url]
    {
      AlphabetSize();
      var cur := draws;
      var ok := true;
      id := [];
      while ok
        invariant st == old(st)
        invariant ok ==> Mint(st.Keys, cur) == Mint(st.Keys, draws)
        invariant !ok ==> Mint(st.Keys, draws) == Some((id, cur))
        decreases |cur| + if ok then 1 else 0
      {
        var b: ID := [];
        var i := 0;
        while i < IdLength
          invariant 0 <= i <= IdLength
          invariant b == Spell(cur[..i])
          invariant st == old(st)
        {
          SpellSnoc(cur[..i], cur[i]);
          assert cur[..i + 1] == cur[..i] + [cur[i]];
          b := b + [AllowedCharacters[cur[i]]];
          i := i + 1;
        }
        id := b;
        cur := cur[IdLength..];
        ok := id in st;
      }
      st := st[id := url];
      return id, cur;
    }

    method Get(id: ID) returns (url: URL, err: Option<Error>)
      ensures (url, err) == Lookup(st, id)
    {
      if id in st {
        return st[id], None;
      }
      return [], Some(ErrURLNotFound);
    }
  }

  /** Get after Add returns the URL; every other identifier keeps its
      answer. */
  lemma AddThenGet(st: map<ID, URL>, url: URL, draws: Draws, other: ID)
    requires Mint(st.Keys, draws).Some?
    ensures Lookup(st[Mint(st.Keys, draws).value.0 := url], Mint(st.Keys, draws).value.0) == (url, None)
    ensures other != Mint(st.Keys, draws).value.0 ==>
              Lookup(st[Mint(st.Keys, draws).value.0 := url], other) == Lookup(st, other)
  {
    LookupStore(st, Mint(st.Keys, draws).value.0, url, other);
  }
}
