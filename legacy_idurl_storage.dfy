/** The first file backend of the service (file.Storage in
    repositories/file/storage.go): one map from identifier to URL and a
    file of records `id,url\n`. Reopening reads an identifier up to its
    comma and then the URL up to the newline, so a URL may hold commas but
    not newlines. There is no URL deduplication and no owner. */
module LegacyIdUrlStorage {
  import opened Types
  import opened Strings
  import opened IdGen
  import opened UrlMap

  /** The record Add writes. */
  function Record(id: ID, url: URL): Text
  {
    id + [','] + url + ['\n']
  }

  /** What NewStorage's loop reads off the front of s: io.EOF while
      reading an identifier (AtEof), an identifier without a terminated URL
      after it (Broken), or one record, both parts with their delimiters,
      and the rest. */
  datatype Next = AtEof | Broken | Whole(id: Text, url: Text, rest: Text)

  function ReadRecord(s: Text): (n: Next)
    ensures n.Whole? ==> |n.rest| < |s|
  {
    var id := ReadBytes(s, ',');
    if id.1 then AtEof
    else
      var after := s[|id.0|..];
      var url := ReadBytes(after, '\n');
      if url.1 then Broken
      else
        Whole(id.0, url.0, after[|url.0|..])
  }

  /** One delimited read from s reads the same from s + r and leaves r
      behind what it left. */
  lemma ReadStep(s: Text, r: Text, delim: Byte)
    requires delim in s
    ensures ReadBytes(s + r, delim) == ReadBytes(s, delim)
    ensures (s + r)[|ReadBytes(s, delim).0|..] == s[|ReadBytes(s, delim).0|..] + r
  {
    ReadBytesPrefix(s, r, delim);
  }

  /** A record read whole from s is read the same from s + r. */
  lemma ReadRecordAppend(s: Text, r: Text)
    requires ReadRecord(s).Whole?
    ensures ReadRecord(s + r)
         == Whole(ReadRecord(s).id, ReadRecord(s).url, ReadRecord(s).rest + r)
  {
    var id := ReadBytes(s, ',');
    var after := s[|id.0|..];
    var url := ReadBytes(after, '\n');
    ReadStep(s, r, ',');
    ReadStep(after, r, '\n');
  }

  /** The read loop of NewStorage, from the unread rest s of the file: an
      io.EOF while reading an identifier ends it successfully (whatever was
      read of that identifier is dropped); an identifier without a
      terminated URL after it is an error (None); otherwise the trimmed
      identifier is mapped to the trimmed URL, overwriting. */
  function Replay(m: map<ID, URL>, s: Text): (r: Option<map<ID, URL>>)
    decreases |s|
  {
    match ReadRecord(s)
    case AtEof => Some(m)
    case Broken => None
    case Whole(id, url, rest) => Replay(m[Trim(id, ',') := Trim(url, '\n')], rest)
  }

  /** A file made of whole records only. */
  predicate Complete(s: Text)
    decreases |s|
  {
    s == [] || (ReadRecord(s).Whole? && Complete(ReadRecord(s).rest))
  }

  /** Reading one record written by Add. */
  lemma ReplayRecord(m: map<ID, URL>, id: ID, url: URL, rest: Text)
    requires ',' !in id && '\n' !in url
    ensures Replay(m, Record(id, url) + rest) == Replay(m[id := url], rest)
    ensures Complete(Record(id, url) + rest) <==> Complete(rest)
  {
    var s := Record(id, url) + rest;
    assert s == id + [','] + (url + ['\n'] + rest);
    ReadBytesDelimited(id, url + ['\n'] + rest, ',');
    assert s[|id| + 1..] == url + ['\n'] + rest;
    ReadBytesDelimited(url, rest, '\n');
    assert (url + ['\n'] + rest)[|url| + 1..] == rest;
    assert ReadRecord(s) == Whole(id + [','], url + ['\n'], rest);
    TrimDelimited(id, ',');
    TrimDelimited(url, '\n');
  }

  /** The records of a complete file are read before whatever follows it. */
  lemma {:induction false} ReplayAppend(m: map<ID, URL>, s: Text, r: Text)
    requires Complete(s)
    ensures Replay(m, s).Some?
    ensures Replay(m, s + r) == Replay(Replay(m, s).value, r)
    decreases |s|
  {
    if s == [] {
      assert s + r == r;
    } else {
      var n := ReadRecord(s);
      ReadRecordAppend(s, r);
      ReplayAppend(m[Trim(n.id, ',') := Trim(n.url, '\n')], n.rest, r);
    }
  }

  /** Whole records followed by whole records are whole records. */
  lemma {:induction false} CompleteAppend(s: Text, r: Text)
    requires Complete(s) && Complete(r)
    ensures Complete(s + r)
    decreases |s|
  {
    if s == [] {
      assert s + r == r;
    } else {
      ReadRecordAppend(s, r);
      CompleteAppend(ReadRecord(s).rest, r);
    }
  }

  /** An unterminated identifier at the end of the file is dropped without
      an error. */
  lemma PartialIdDropped(m: map<ID, URL>, tail: Text)
    requires ',' !in tail
    ensures Replay(m, tail) == Some(m)
  {
  }

  /** A record whose URL has no newline after it makes NewStorage fail. */
  lemma UnterminatedRecordFails(m: map<ID, URL>, id: ID, tail: Text)
    requires ',' !in id && '\n' !in tail
    ensures Replay(m, id + [','] + tail) == None
  {
    ReadBytesDelimited(id, tail, ',');
    assert (id + [','] + tail)[|id| + 1..] == tail;
  }

  /** The map is what reopening the file gives, and the file is whole
      records. */
  predicate Synced(m: map<ID, URL>, file: Text)
  {
    Complete(file) && Replay(map[], file) == Some(m)
  }

  datatype AddOutcome = AddOutcome(dict: map<ID, URL>, file: Text, id: ID, err: Option<Error>, rest: Entropy)

  /** Add: draw identifiers until one is not a key, map it to the URL, then
      append the record and flush. A failed draw returns "" and the error
      with nothing changed; a failed write or flush returns "" and the error
      with the map already changed. */
  function AddResult(m: map<ID, URL>, file: Text, url: URL, src: Entropy, writeOk: bool): (o: AddOutcome)
    ensures o.err.None? ==>
              o.id !in m && ValidId(o.id) && o.dict == m[o.id := url] && o.file == file + Record(o.id, url)
    ensures o.err.Some? ==> o.id == [] && o.file == file
    ensures o.err == Some(ErrEntropy) ==> o.dict == m
    ensures o.err.Some? ==> o.err == Some(ErrEntropy) || (o.err == Some(ErrWrite) && !writeOk)
  {
    var g := GenerateUnused(m.Keys, src);
    if g.None? then AddOutcome(m, file, [], Some(ErrEntropy), [])
    else if !writeOk then AddOutcome(m[g.value.0 := url], file, [], Some(ErrWrite), g.value.1)
    else AddOutcome(m[g.value.0 := url], file + Record(g.value.0, url), g.value.0, None, g.value.1)
  }

  /** Reopening after a successful Add gives the stored URL back, commas in
      it included, as long as it holds no newline. */
  lemma AddSynced(m: map<ID, URL>, file: Text, url: URL, src: Entropy)
    requires Synced(m, file) && '\n' !in url
    ensures Synced(AddResult(m, file, url, src, true).dict, AddResult(m, file, url, src, true).file)
  {
    var o := AddResult(m, file, url, src, true);
    if o.err.None? {
      ValidIdClean(o.id);
      var rec := Record(o.id, url);
      ReplayRecord(m, o.id, url, []);
      assert rec + [] == rec;
      ReplayAppend(map[], file, rec);
      CompleteAppend(file, rec);
    }
  }

  /** The round trip: a stored link is found again after reopening. */
  lemma AddThenReopen(m: map<ID, URL>, file: Text, url: URL, src: Entropy)
    requires Synced(m, file) && '\n' !in url
    requires AddResult(m, file, url, src, true).err.None?
    ensures Replay(map[], AddResult(m, file, url, src, true).file).Some?
    ensures Lookup(Replay(map[], AddResult(m, file, url, src, true).file).value, AddResult(m, file, url, src, true).id)
         == (url, None)
  {
    AddSynced(m, file, url, src);
  }

  class Storage {
    var idURLsDictionary: map<ID, URL>
    var file: Text

    constructor(file0: Text)
      ensures idURLsDictionary == map[] && file == file0
    {
      idURLsDictionary := map[];
      file := file0;
    }

    method Add(url: URL, src: Entropy, writeOk: bool) returns (id: ID, err: Option<Error>, rest: Entropy)
      modifies this
      ensures AddOutcome(idURLsDictionary, file, id, err, rest)
           == AddResult(old(idURLsDictionary), old(file), url, src, writeOk)
    {
      var taken := idURLsDictionary.Keys;
      var cur := src;
      var collides := true;
      id := [];
      while collides
        invariant taken == idURLsDictionary.Keys
        invariant idURLsDictionary == old(idURLsDictionary) && file == old(file)
        invariant collides ==> GenerateUnused(taken, cur) == GenerateUnused(taken, src)
        invariant !collides ==> GenerateUnused(taken, src) == Some((id, cur))
        decreases |cur| + if collides then 1 else 0
      {
        var e, prev := None, cur;
        id, e, cur := GenRandomID(prev);
        if e.Some? {
          return [], e, [];
        }
        GenerateValid(prev);
        collides := id in idURLsDictionary;
      }
      idURLsDictionary := idURLsDictionary[id := url];
      if !writeOk {
        return [], Some(ErrWrite), cur;
      }
      file := file + Record(id, url);
      return id, None, cur;
    }

    method Get(id: ID) returns (url: URL, err: Option<Error>)
      ensures (url, err) == Lookup(idURLsDictionary, id)
    {
      if id in idURLsDictionary {
        return idURLsDictionary[id], None;
      }
      return [], Some(ErrURLNotFound);
    }

    /** Close: the file's own Close; ok says whether it succeeded. */
    method Close(ok: bool) returns (err: Option<Error>)
      ensures err.None? <==> ok
    {
      return if ok then None else Some(ErrWrite);
    }
  }

  /** NewStorage: open (or create) the named file, which fails for an empty
      name, then read it record by record. */
  method NewStorage(filename: Text, contents: Text) returns (st: Storage?, err: Option<Error>)
    ensures filename == [] ==> st == null && err == Some(ErrOpen)
    ensures filename != [] ==> (err.None? <==> Replay(map[], contents).Some?)
    ensures filename != [] && err.Some? ==> st == null && err == Some(ErrEOF)
    ensures err.None? ==>
              st != null && fresh(st) && st.file == contents && st.idURLsDictionary == Replay(map[], contents).value
  {
    if filename == [] {
      return null, Some(ErrOpen);
    }
    var s := new Storage(contents);
    var rest := contents;
    while true
      invariant fresh(s) && s.file == contents
      invariant Replay(map[], contents) == Replay(s.idURLsDictionary, rest)
      decreases |rest|
    {
      var id := ReadBytes(rest, ',');
      if id.1 {
        break;
      }
      var after := rest[|id.0|..];
      var url := ReadBytes(after, '\n');
      if url.1 {
        return null, Some(ErrEOF);
      }
      var sID := Trim(id.0, ',');
      var sURL := Trim(url.0, '\n');
      s.idURLsDictionary := s.idURLsDictionary[sID := sURL];
      rest := after[|url.0|..];
    }
    return s, None;
  }
}
