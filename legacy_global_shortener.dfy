/** The shortener of storage/main.go: package functions over one global map
    `ids`. The global is the field of the single Shortener object. */
module LegacyGlobalShortener {
  import opened Types
  import opened IdGen
  import opened MathRandId
  import opened UrlMap

  /** genID: IdLength characters appended to a builder one at a time. */
  method GenID(draws: Draws) returns (id: ID, rest: Draws)
    requires IdLength <= |draws|
    ensures id == Spell(draws[..IdLength]) && rest == draws[IdLength..]
    ensures ValidId(id)
  {
    AlphabetSize();
    var b: ID := [];
    var i := 0;
    while i < IdLength
      invariant 0 <= i <= IdLength
      invariant b == Spell(draws[..i])
    {
      SpellSnoc(draws[..i], draws[i]);
      assert draws[..i + 1] == draws[..i] + [draws[i]];
      b := b + [AllowedCharacters[draws[i]]];
      i := i + 1;
    }
    return b, draws[IdLength..];
  }

  class Shortener {
    /** The package variable ids. */
    var ids: map<ID, URL>

    /** The map as the package initialises it. */
    constructor()
      ensures ids == map[]
    {
      ids := map[];
    }

    /** Make: call genID until its identifier is not a key, then store the
        URL under it. The draws must let the loop end. */
    method Make(url: URL, draws: Draws) returns (id: ID, rest: Draws)
      requires Mint(ids.Keys, draws).Some?
      modifies this
      ensures (id, rest) == Mint(old(ids).Keys, draws).value
      ensures id !in old(ids) && ValidId(id)
      ensures ids == old(ids)[id := url]
    {
      var cur := draws;
      var ok := true;
      id := [];
      while ok
        invariant ids == old(ids)
        invariant ok ==> Mint(ids.Keys, cur) == Mint(ids.Keys, draws)
        invariant !ok ==> Mint(ids.Keys, draws) == Some((id, cur))
        decreases |cur| + if ok then 1 else 0
      {
        id, cur := GenID(cur);
        ok := id in ids;
      }
      ids := ids[id := url];
      return id, cur;
    }

    method Get(id: ID) returns (url: URL, err: Option<Error>)
      ensures (url, err) == Lookup(ids, id)
    {
      if id in ids {
        return ids[id], None;
      }
      return [], Some(ErrURLNotFound);
    }
  }
}
