/** The Get of the map-only shorteners: an identifier-to-URL map answering
    with the URL, or with "" and the error "URL not found". */
module UrlMap {
  import opened Types

  /** Get: (url, nil) for a key, ("", "URL not found") otherwise. */
  function Lookup(m: map<ID, URL>, id: ID): (r: (URL, Option<Error>))
    ensures r.1.None? <==> id in m
    ensures r.1.Some? ==> r == ([], Some(ErrURLNotFound))
  {
    if id in m then (m[id], None) else ([], Some(ErrURLNotFound))
  }

  /** Storing url under a fresh key makes Get return it there and changes
      the answer for no other identifier. */
  lemma LookupStore(m: map<ID, URL>, id: ID, url: URL, other: ID)
    ensures Lookup(m[id := url], id) == (url, None)
    ensures other != id ==> Lookup(m[id := url], other) == Lookup(m, other)
  {
  }
}
