/** The first log-file backend (repositories.FileStorage in fileStorage.go):
    the legacy in-memory maps plus a text file of lines `id,url,uuid`,
    replayed when the storage is created. The URL is written as it is, so
    a URL holding a comma cannot be read back; the current log backend
    (DiskStorage) base64-encodes that field. */
module LegacyCsvStorage {
  import opened Types
  import opened Strings
  import Uuid
  import opened IdGen
  import opened LegacyMemoryStorage

  /** The line Add writes (without its newline): id, url and the owner's
      UUID joined by commas. */
  function CsvLine(id: ID, url: URL, user: User): Text
  {
    Join([id, url, Uuid.Format(user)], ',')
  }

  /** Every line the replay reaches splits into at least three fields, as
      the replay indexes the first three without checking. The replay stops
      at the first line whose owner does not parse, so what follows that
      line is never read and may hold anything. */
  predicate ReadableLines(lines: seq<Text>)
    decreases |lines|
  {
    lines != [] ==>
      var f := Split(lines[0], ',');
      |f| >= 3 && (Uuid.Parse(f[2]).Some? ==> ReadableLines(lines[1..]))
  }

  /** A file whose complete lines the replay can take apart. */
  predicate Readable(file: Text)
  {
    ReadableLines(Lines(file))
  }

  /** One line of the replay: the owner must parse, otherwise construction
      fails; then both maps are written, overwriting earlier entries. */
  function LoadLine(t: Tables, line: Text): (r: Option<Tables>)
    requires |Split(line, ',')| >= 3
    ensures r.None? <==> Uuid.Parse(Split(line, ',')[2]).None?
  {
    var f := Split(line, ',');
    var user := Uuid.Parse(f[2]);
    if user.None? then None
    else Some(Tables(t.existingURLs[f[1] := f[0]], t.links[f[0] := Record(f[1], user.value)]))
  }

  /** The replay of NewFileStorage: the lines in order, the first failure
      ending it. */
  function LoadResult(t: Tables, lines: seq<Text>): Option<Tables>
    requires ReadableLines(lines)
    decreases |lines|
  {
    if lines == [] then Some(t)
    else
      var r := LoadLine(t, lines[0]);
      if r.None? then None else LoadResult(r.value, lines[1..])
  }

  lemma {:induction false} LoadResultSnoc(t: Tables, lines: seq<Text>, line: Text)
    requires ReadableLines(lines)
    requires |Split(line, ',')| >= 3
    ensures ReadableLines(lines + [line])
    ensures LoadResult(t, lines + [line])
         == if LoadResult(t, lines).None? then None else LoadLine(LoadResult(t, lines).value, line)
    decreases |lines|
  {
    if lines == [] {
      assert lines + [line] == [line];
      assert ReadableLines([line][1..]);
    } else {
      assert (lines + [line])[0] == lines[0];
      assert (lines + [line])[1..] == lines[1..] + [line];
      var r := LoadLine(t, lines[0]);
      if r.Some? {
        LoadResultSnoc(r.value, lines[1..], line);
      }
    }
  }

  /** A line whose owner does not parse ends the replay with a failure,
      whatever the lines after it hold: they need not even have three
      fields. */
  lemma BadOwnerEndsReplay(t: Tables, line: Text, rest: seq<Text>)
    requires |Split(line, ',')| >= 3 && Uuid.Parse(Split(line, ',')[2]).None?
    ensures ReadableLines([line] + rest)
    ensures LoadResult(t, [line] + rest) == None
  {
    assert ([line] + rest)[0] == line;
  }

  /** What a file gives when it is opened: the maps, or None when a line's
      owner does not parse. */
  function Replayed(file: Text): Option<Tables>
    requires Readable(file)
  {
    LoadResult(Empty, Lines(file))
  }

  /** The maps are what reopening the file gives. */
  predicate Synced(t: Tables, file: Text)
  {
    AtLineBoundary(file) && Readable(file) && Replayed(file) == Some(t)
  }

  datatype FileAddOutcome = FileAddOutcome(outcome: AddOutcome, file: Text)

  /** Add: the legacy in-memory Add, then, when it stored a link, the line
      and its newline, flushed. A failed write or flush returns "" and the
      error, with the maps already changed. */
  function FileAddResult(t: Tables, file: Text, url: URL, user: User, src: Entropy, writeOk: bool): (r: FileAddOutcome)
    ensures r.outcome.tables == AddResult(t, url, user, src).tables
    ensures AddResult(t, url, user, src).err.Some? ==> r == FileAddOutcome(AddResult(t, url, user, src), file)
    ensures AddResult(t, url, user, src).err.None? && !writeOk ==>
              r.file == file && r.outcome.id == [] && r.outcome.err == Some(ErrWrite)
    ensures AddResult(t, url, user, src).err.None? && writeOk ==>
              r.outcome == AddResult(t, url, user, src)
              && r.file == file + CsvLine(r.outcome.id, url, user) + ['\n']
  {
    var o := AddResult(t, url, user, src);
    if o.err.Some? then FileAddOutcome(o, file)
    else if writeOk then FileAddOutcome(o, file + CsvLine(o.id, url, user) + ['\n'])
    else FileAddOutcome(AddOutcome(o.tables, [], Some(ErrWrite), o.rest), file)
  }

  lemma CsvLineFields(id: ID, url: URL, user: User)
    requires ',' !in id && '\n' !in id && ',' !in url && '\n' !in url
    ensures Split(CsvLine(id, url, user), ',') == [id, url, Uuid.Format(user)]
    ensures '\n' !in CsvLine(id, url, user)
  {
    var fields: seq<Text> := [id, url, Uuid.Format(user)];
    assert forall i | 0 <= i < |fields| :: ',' !in fields[i] && '\n' !in fields[i];
    SplitJoin(fields, ',');
    JoinAvoids(fields, ',', '\n');
  }

  /** Appending one complete line replays that line on top of the maps. */
  lemma AppendLoads(t: Tables, file: Text, line: Text)
    requires Synced(t, file)
    requires |Split(line, ',')| >= 3 && '\n' !in line
    ensures AtLineBoundary(file + line + ['\n']) && Readable(file + line + ['\n'])
    ensures Replayed(file + line + ['\n']) == LoadLine(t, line)
  {
    var file' := file + line + ['\n'];
    LinesAppend(file, line);
    LoadResultSnoc(Empty, Lines(file), line);
    assert file'[|file'| - 1] == '\n';
  }

  lemma LoadCsvLine(t: Tables, id: ID, url: URL, user: User)
    requires ',' !in id && '\n' !in id && ',' !in url && '\n' !in url
    ensures |Split(CsvLine(id, url, user), ',')| >= 3 && '\n' !in CsvLine(id, url, user)
    ensures LoadLine(t, CsvLine(id, url, user)) == Some(Tables(t.existingURLs[url := id], t.links[id := Record(url, user)]))
  {
    CsvLineFields(id, url, user);
    Uuid.ParseFormat(user);
  }

  /** A URL without commas or newlines survives a reopen: the file stays in
      step with the maps. */
  lemma FileAddSynced(t: Tables, file: Text, url: URL, user: User, src: Entropy)
    requires Synced(t, file)
    requires ',' !in url && '\n' !in url
    ensures Synced(FileAddResult(t, file, url, user, src, true).outcome.tables,
                   FileAddResult(t, file, url, user, src, true).file)
  {
    var o := AddResult(t, url, user, src);
    if o.err.None? {
      ValidIdClean(o.id);
      LoadCsvLine(t, o.id, url, user);
      AppendLoads(t, file, CsvLine(o.id, url, user));
    }
  }

  /** A URL with a comma in it. */
  const CommaUrl: URL := "a,b"

  lemma CommaLineFields(id: ID, user: User)
    requires ',' !in id && '\n' !in id
    ensures Split(CsvLine(id, "a,b", user), ',') == [id, "a", "b", Uuid.Format(user)]
    ensures '\n' !in CsvLine(id, "a,b", user)
  {
    var f := Uuid.Format(user);
    var fields: seq<Text> := [id, "a", "b", f];
    assert CsvLine(id, "a,b", user) == Join(fields, ',') by {
      var three: seq<Text> := [id, "a,b", f];
      assert three[1..][1..] == [f] && fields[1..][1..][1..] == [f];
      assert Join(three[1..], ',') == "a,b" + [','] + f;
      assert Join(three, ',') == id + [','] + ("a,b" + [','] + f);
      assert Join(fields[1..][1..], ',') == "b" + [','] + f;
      assert Join(fields[1..], ',') == "a" + [','] + ("b" + [','] + f);
      assert Join(fields, ',') == id + [','] + ("a" + [','] + ("b" + [','] + f));
      assert "a,b" + [','] + f == "a" + [','] + ("b" + [','] + f);
    }
    assert forall i | 0 <= i < |fields| :: ',' !in fields[i] && '\n' !in fields[i];
    SplitJoin(fields, ',');
    JoinAvoids(fields, ',', '\n');
  }

  /** The line of the URL "a,b" has the fields the replay indexes, and its
      third field, "b", is not a UUID. */
  lemma CommaLineFails(t: Tables, id: ID, user: User)
    requires ',' !in id && '\n' !in id
    ensures |Split(CsvLine(id, CommaUrl, user), ',')| >= 3 && '\n' !in CsvLine(id, CommaUrl, user)
    ensures LoadLine(t, CsvLine(id, CommaUrl, user)) == None
  {
    CommaLineFields(id, user);
    assert Uuid.Parse("b") == None;
  }

  /** A stored link whose line has the fields the replay indexes but does
      not load leaves a file that cannot be reopened. */
  lemma AddBreaksReload(t: Tables, file: Text, url: URL, user: User, src: Entropy)
    requires Synced(t, file)
    requires AddResult(t, url, user, src).err.None?
    requires |Split(CsvLine(AddResult(t, url, user, src).id, url, user), ',')| >= 3
    requires '\n' !in CsvLine(AddResult(t, url, user, src).id, url, user)
    requires LoadLine(t, CsvLine(AddResult(t, url, user, src).id, url, user)) == None
    ensures Readable(FileAddResult(t, file, url, user, src, true).file)
    ensures Replayed(FileAddResult(t, file, url, user, src, true).file) == None
  {
    AppendLoads(t, file, CsvLine(AddResult(t, url, user, src).id, url, user));
  }

  /** The defect: a stored URL with a comma in it, such as "a,b", is split
      into two fields on reopening, and the piece after the comma is taken
      for the owner's UUID, so NewFileStorage fails on the file that Add
      wrote. */
  lemma CommaUrlBreaksReload(t: Tables, file: Text, user: User, src: Entropy)
    requires Synced(t, file)
    requires AddResult(t, CommaUrl, user, src).err.None?
    ensures Readable(FileAddResult(t, file, CommaUrl, user, src, true).file)
    ensures Replayed(FileAddResult(t, file, CommaUrl, user, src, true).file) == None
  {
    var o := AddResult(t, CommaUrl, user, src);
    ValidIdClean(o.id);
    CommaLineFails(t, o.id, user);
    AddBreaksReload(t, file, CommaUrl, user, src);
  }

  // ---------------------------------------------------------------------
  // The storage object

  class FileStorage {
    var existingURLs: map<URL, ID>
    var idLinkDataDictionary: map<ID, Record>
    var file: Text

    function State(): Tables
      reads this
    {
      Tables(existingURLs, idLinkDataDictionary)
    }

    constructor(file0: Text)
      ensures State() == Empty && file == file0
    {
      existingURLs := map[];
      idLinkDataDictionary := map[];
      file := file0;
    }

    method Add(url: URL, user: User, src: Entropy, writeOk: bool) returns (id: ID, err: Option<Error>, rest: Entropy)
      modifies this
      ensures FileAddOutcome(AddOutcome(State(), id, err, rest), file)
           == FileAddResult(old(State()), old(file), url, user, src, writeOk)
    {
      if url in existingURLs {
        return existingURLs[url], Some(ErrURLAlreadyExists), src;
      }
      var taken := idLinkDataDictionary.Keys;
      var cur := src;
      var collides := true;
      id := [];
      while collides
        invariant taken == idLinkDataDictionary.Keys && State() == old(State()) && file == old(file)
        invariant collides ==> GenerateUnused(taken, cur) == GenerateUnused(taken, src)
        invariant !collides ==> GenerateUnused(taken, src) == Some((id, cur))
        decreases |cur| + if collides then 1 else 0
      {
        var e, prev := None, cur;
        id, e, cur := GenRandomID(prev);
        if e.Some? {
          return [], e, [];
        }
        GenerateValid(prev);
        collides := id in idLinkDataDictionary;
      }
      idLinkDataDictionary := idLinkDataDictionary[id := Record(url, user)];
      existingURLs := existingURLs[url := id];
      err := Write(CsvLine(id, url, user), writeOk);
      if err.Some? {
        return [], err, cur;
      }
      return id, None, cur;
    }

    /** The writer's Write and Flush of one line: the data and its newline
        appended, or ErrWrite with the file unchanged. */
    method Write(data: Text, ok: bool) returns (err: Option<Error>)
      modifies this
      ensures State() == old(State())
      ensures ok ==> file == old(file) + data + ['\n'] && err.None?
      ensures !ok ==> file == old(file) && err == Some(ErrWrite)
    {
      if !ok {
        return Some(ErrWrite);
      }
      file := file + data + ['\n'];
      return None;
    }

    method Get(id: ID) returns (url: URL, err: Option<Error>)
      ensures (url, err) == Lookup(State(), id)
    {
      if id in idLinkDataDictionary {
        return idLinkDataDictionary[id].url, None;
      }
      return [], Some(ErrURLNotFound);
    }

    /** GetUserLinks: the owner's records, each once, in the map's iteration
        order (which the model leaves open). */
    method GetUserLinks(user: User) returns (data: seq<UserLink>, err: Option<Error>)
      ensures err.None?
      ensures forall l | l in data :: l in UserLinks(State(), user)
      ensures forall l | l in UserLinks(State(), user) :: l in data
      ensures forall i, j | 0 <= i < j < |data| :: data[i].id != data[j].id
    {
      data := [];
      var todo := idLinkDataDictionary.Keys;
      while todo != {}
        invariant todo <= idLinkDataDictionary.Keys
        invariant forall l | l in data :: l in UserLinks(State(), user) && l.id !in todo
        invariant forall k | k in idLinkDataDictionary.Keys - todo ::
                    idLinkDataDictionary[k].user == user ==> UserLink(k, idLinkDataDictionary[k].url) in data
        invariant forall i, j | 0 <= i < j < |data| :: data[i].id != data[j].id
        decreases |todo|
      {
        var id :| id in todo;
        var value := idLinkDataDictionary[id];
        todo := todo - {id};
        if value.user == user {
          data := data + [UserLink(id, value.url)];
        }
      }
      return data, None;
    }

    method Pool() returns (ok: bool)
      ensures ok
    {
      return true;
    }

    /** Close: the file's own Close; ok says whether it succeeded. */
    method Close(ok: bool) returns (err: Option<Error>)
      ensures err.None? <==> ok
    {
      return if ok then None else Some(ErrWrite);
    }
  }

  /** NewFileStorage: empty maps, then a ReadBytes('\n') loop over the file
      that stops at io.EOF (dropping an unterminated last line); a line
      whose owner does not parse aborts with (nil, err). */
  method NewFileStorage(file: Text) returns (st: FileStorage?, err: Option<Error>)
    requires Readable(file)
    ensures err.None? <==> Replayed(file).Some?
    ensures err.None? ==> st != null && fresh(st) && st.State() == Replayed(file).value && st.file == file
    ensures err.Some? ==> st == null && err == Some(ErrUnableParseUser)
  {
    var s := new FileStorage(file);
    var rest := file;
    while true
      invariant fresh(s) && s.file == file
      invariant ReadableLines(Lines(rest))
      invariant Replayed(file) == LoadResult(s.State(), Lines(rest))
      decreases |rest|
    {
      var r := ReadBytes(rest, '\n');
      ReadLine(rest);
      if r.1 {
        break;
      }
      var chunk := r.0;
      var after := rest[|chunk|..];
      var line := Trim(chunk, '\n');
      var splitted := Split(line, ',');
      var id := splitted[0];
      var url := splitted[1];
      var user := Uuid.Parse(splitted[2]);
      ghost var lines := Lines(rest);
      assert LoadResult(s.State(), lines) == if user.None? then None else LoadResult(LoadLine(s.State(), line).value, lines[1..]);
      if user.None? {
        return null, Some(ErrUnableParseUser);
      }
      s.idLinkDataDictionary := s.idLinkDataDictionary[id := Record(url, user.value)];
      s.existingURLs := s.existingURLs[url := id];
      assert Lines(after) == lines[1..];
      rest := after;
    }
    return s, None;
  }
}
