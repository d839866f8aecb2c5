/** The append-log backend (disk.FileStorage): a MemStorage whose changes are
    also appended to a text file, one record per line,
      NEW,<id>,<uuid>,<base64 of the URL>
      DELETE,<id>,<uuid>
    and which rebuilds its maps on start-up by replaying the file. The file is
    its contents as a byte string; whether a write succeeds is a parameter. */
module DiskStorage {
  import opened Types
  import opened Strings
  import Uuid
  import Base64
  import opened IdGen
  import opened MemoryStorage

  // ---------------------------------------------------------------------
  // Records

  /** The line Add writes after a successful AddLink (without its newline). */
  function NewRecord(id: ID, user: User, url: URL): Text
  {
    Join(["NEW", id, Uuid.Format(user), Base64.Encode(url)], ',')
  }

  /** The line DeleteUserLinks writes for a record it deleted. */
  function DeleteRecord(id: ID, user: User): Text
  {
    Join(["DELETE", id, Uuid.Format(user)], ',')
  }

  /** An identifier fits in one field of one line. */
  predicate CleanId(id: ID)
  {
    ',' !in id && '\n' !in id
  }

  /** The fields of a NEW line that loadNew can take apart without indexing
      past them: the owner is always read, and the URL field only once the
      owner has parsed. */
  predicate NewIndexable(f: seq<Text>)
  {
    |f| >= 3 && (Uuid.Parse(f[2]).Some? ==> |f| >= 4)
  }

  /** A line load can take apart without indexing past the fields it has:
      NEW as NewIndexable says, DELETE three fields. Any other tag is
      ignored. */
  predicate Indexable(line: Text)
  {
    var f := Split(line, ',');
    (f[0] == "NEW" ==> NewIndexable(f)) && (f[0] == "DELETE" ==> |f| >= 3)
  }

  /** Every complete line of a file is one load can take apart. */
  predicate Readable(file: Text)
  {
    forall i | 0 <= i < |Lines(file)| :: Indexable(Lines(file)[i])
  }

  // ---------------------------------------------------------------------
  // Replaying the log

  /** loadNew: parse the owner and decode the URL, then store the record and
      the URL's identifier, overwriting whatever was there. A bad UUID or bad
      base64 changes nothing. */
  function LoadNewResult(t: Tables, fields: seq<Text>): (r: (Tables, Option<Error>))
    requires NewIndexable(fields)
    ensures Uuid.Parse(fields[2]).None? ==> r == (t, Some(ErrUnableParseUser))
    ensures Uuid.Parse(fields[2]).Some? && Base64.Decode(fields[3]).None? ==> r == (t, Some(ErrUnableDecodeURL))
    ensures r.1.None? ==> Uuid.Parse(fields[2]).Some? && Base64.Decode(fields[3]).Some?
    ensures r.1.None? ==>
              r.0.links == t.links[fields[1] := LinkData([], Base64.Decode(fields[3]).value, Uuid.Parse(fields[2]).value, false)]
              && r.0.existingURLs == t.existingURLs[Base64.Decode(fields[3]).value := fields[1]]
  {
    var id := fields[1];
    var user := Uuid.Parse(fields[2]);
    if user.None? then (t, Some(ErrUnableParseUser))
    else
      var url := Base64.Decode(fields[3]);
      if url.None? then (t, Some(ErrUnableDecodeURL))
      else (Tables(t.existingURLs[url.value := id], t.links[id := LinkData([], url.value, user.value, false)]), None)
  }

  /** loadDelete: parse the owner; an unknown identifier or another owner is
      an error and changes nothing; otherwise only that record is marked
      deleted. */
  function LoadDeleteResult(t: Tables, fields: seq<Text>): (r: (Tables, Option<Error>))
    requires |fields| >= 3
    ensures Uuid.Parse(fields[2]).None? ==> r == (t, Some(ErrUnableParseUser))
    ensures Uuid.Parse(fields[2]).Some? && fields[1] !in t.links ==> r == (t, Some(ErrLinkNotExists))
    ensures (Uuid.Parse(fields[2]).Some? && fields[1] in t.links && t.links[fields[1]].user != Uuid.Parse(fields[2]).value)
              ==> r == (t, Some(ErrUserNotMatch))
    ensures r.1.None? ==> r.0 == DeleteLinkResult(t, fields[1], Uuid.Parse(fields[2]).value).0
  {
    var id := fields[1];
    var user := Uuid.Parse(fields[2]);
    if user.None? then (t, Some(ErrUnableParseUser))
    else if id !in t.links then (t, Some(ErrLinkNotExists))
    else if t.links[id].user != user.value then (t, Some(ErrUserNotMatch))
    else (Tables(t.existingURLs, t.links[id := t.links[id].(deleted := true)]), None)
  }

  /** One turn of load: split the line on commas and dispatch on its tag;
      errors are only logged, and other tags are ignored. */
  function ApplyLine(t: Tables, line: Text): Tables
    requires Indexable(line)
  {
    var f := Split(line, ',');
    if f[0] == "NEW" then LoadNewResult(t, f).0
    else if f[0] == "DELETE" then LoadDeleteResult(t, f).0
    else t
  }

  /** load: the lines applied in file order. */
  function Replay(t: Tables, lines: seq<Text>): Tables
    requires forall i | 0 <= i < |lines| :: Indexable(lines[i])
    decreases |lines|
  {
    if lines == [] then t else Replay(ApplyLine(t, lines[0]), lines[1..])
  }

  lemma {:induction false} ReplaySnoc(t: Tables, lines: seq<Text>, line: Text)
    requires forall i | 0 <= i < |lines| :: Indexable(lines[i])
    requires Indexable(line)
    ensures forall i | 0 <= i < |lines + [line]| :: Indexable((lines + [line])[i])
    ensures Replay(t, lines + [line]) == ApplyLine(Replay(t, lines), line)
    decreases |lines|
  {
    assert forall i | 0 <= i < |lines + [line]| :: Indexable((lines + [line])[i]) by {
      forall i | 0 <= i < |lines + [line]| ensures Indexable((lines + [line])[i])
      {
        if i < |lines| {
          assert (lines + [line])[i] == lines[i];
        }
      }
    }
    if lines == [] {
      assert lines + [line] == [line];
    } else {
      assert (lines + [line])[1..] == lines[1..] + [line];
      ReplaySnoc(ApplyLine(t, lines[0]), lines[1..], line);
    }
  }

  /** The state a log file describes. */
  function FileState(file: Text): Tables
    requires Readable(file)
  {
    Replay(Empty, Lines(file))
  }

  /** The maps mirror the file: the file ends at a line boundary, load can
      read it, and replaying it gives exactly the maps. */
  predicate Synced(t: Tables, file: Text)
  {
    AtLineBoundary(file) && Readable(file) && t == FileState(file)
  }

  // ---------------------------------------------------------------------
  // The records that are written replay to the change that wrote them

  lemma NewRecordFields(id: ID, user: User, url: URL)
    requires CleanId(id)
    ensures Split(NewRecord(id, user, url), ',') == ["NEW", id, Uuid.Format(user), Base64.Encode(url)]
    ensures '\n' !in NewRecord(id, user, url)
  {
    var fields: seq<Text> := ["NEW", id, Uuid.Format(user), Base64.Encode(url)];
    Base64.EncodeClean(url);
    assert forall i | 0 <= i < |fields| :: ',' !in fields[i] && '\n' !in fields[i];
    SplitJoin(fields, ',');
    JoinAvoids(fields, ',', '\n');
  }

  lemma DeleteRecordFields(id: ID, user: User)
    requires CleanId(id)
    ensures Split(DeleteRecord(id, user), ',') == ["DELETE", id, Uuid.Format(user)]
    ensures '\n' !in DeleteRecord(id, user)
  {
    var fields: seq<Text> := ["DELETE", id, Uuid.Format(user)];
    assert forall i | 0 <= i < |fields| :: ',' !in fields[i] && '\n' !in fields[i];
    SplitJoin(fields, ',');
    JoinAvoids(fields, ',', '\n');
  }

  /** A NEW line with only three fields and an owner that is not a UUID. */
  const ShortNewLine: Text := "NEW,x,y"
  const ShortNewFields: seq<Text> := ["NEW", "x", "y"]

  /** The trailing field "x,y" of the short line splits into two fields. */
  lemma SplitShortTail()
    ensures Split("x,y", ',') == ["x", "y"]
  {
    var y: Text := "y";
    assert y[1..] == [] && Split(y[1..], ',') == [[]];
    assert [y[0]] + [] == y;
    var xy: Text := "x,y";
    assert xy[1..][1..] == y && xy[1..][0] == ',';
    assert Split(xy[1..], ',') == [[], y];
    assert [xy[0]] + [] == "x";
  }

  /** strings.Split takes that line apart into its three fields. */
  lemma ShortNewLineFields()
    ensures Split(ShortNewLine, ',') == ShortNewFields
  {
    var xy: Text := "x,y";
    SplitShortTail();
    var line := ShortNewLine;
    assert line[1..][1..][1..][1..] == xy && line[1..][1..][1..][0] == ',';
    assert Split(line[1..][1..][1..], ',') == [[], "x", "y"];
    assert [line[1..][1..][0]] + [] == "W";
    assert Split(line[1..][1..], ',') == ["W", "x", "y"];
    assert [line[1..][0]] + "W" == "EW";
    assert Split(line[1..], ',') == ["EW", "x", "y"];
    assert [line[0]] + "EW" == "NEW";
  }

  /** loadNew returns ErrUnableParseUser before it reads a fourth field, so
      load logs such a line and carries on with the maps unchanged. */
  lemma ShortNewLineSkipped(t: Tables)
    ensures Indexable(ShortNewLine)
    ensures LoadNewResult(t, Split(ShortNewLine, ',')) == (t, Some(ErrUnableParseUser))
    ensures ApplyLine(t, ShortNewLine) == t
  {
    ShortNewLineFields();
    assert Uuid.Parse(ShortNewFields[2]).None?;
  }

  /** Replaying a NEW record stores exactly what AddLink stored. */
  lemma ApplyNewRecord(t: Tables, id: ID, user: User, url: URL)
    requires CleanId(id)
    ensures Indexable(NewRecord(id, user, url))
    ensures ApplyLine(t, NewRecord(id, user, url))
         == Tables(t.existingURLs[url := id], t.links[id := LinkData([], url, user, false)])
  {
    NewRecordFields(id, user, url);
    Uuid.ParseFormat(user);
    Base64.DecodeEncode(url);
  }

  /** Replaying a DELETE record does what DeleteUserLink did. */
  lemma ApplyDeleteRecord(t: Tables, id: ID, user: User)
    requires CleanId(id)
    ensures Indexable(DeleteRecord(id, user))
    ensures ApplyLine(t, DeleteRecord(id, user)) == DeleteLinkResult(t, id, user).0
  {
    DeleteRecordFields(id, user);
    Uuid.ParseFormat(user);
  }

  /** Appending one record line to a synced file keeps it synced with the
      maps changed as that record says. */
  lemma AppendSynced(t: Tables, file: Text, line: Text)
    requires Synced(t, file)
    requires Indexable(line) && '\n' !in line
    ensures Synced(ApplyLine(t, line), file + line + ['\n'])
  {
    var file' := file + line + ['\n'];
    LinesAppend(file, line);
    ReplaySnoc(Empty, Lines(file), line);
    assert AtLineBoundary(file') by {
      assert file'[|file'| - 1] == '\n';
    }
  }

  /** The identifiers a log file can hold are clean: they come out of a
      comma split of a newline-free line. */
  lemma {:induction false} ReplayKeysClean(t: Tables, lines: seq<Text>)
    requires forall i | 0 <= i < |lines| :: Indexable(lines[i]) && '\n' !in lines[i]
    requires forall id | id in t.links :: CleanId(id)
    ensures forall id | id in Replay(t, lines).links :: CleanId(id)
    decreases |lines|
  {
    if lines != [] {
      var f := Split(lines[0], ',');
      SplitAvoids(lines[0], ',', '\n');
      assert forall i | 0 <= i < |f| :: ',' !in f[i] && '\n' !in f[i];
      ReplayKeysClean(ApplyLine(t, lines[0]), lines[1..]);
    }
  }

  lemma FileKeysClean(file: Text)
    requires Readable(file)
    ensures forall id | id in FileState(file).links :: CleanId(id)
  {
    LinesFromNoNewline([], file);
    ReplayKeysClean(Empty, Lines(file));
  }

  // ---------------------------------------------------------------------
  // The operations on (maps, file)

  /** Add: AddLink, then, only when it succeeded, the NEW record; a failed
      write is returned as the error, with the identifier and the maps kept. */
  function FileAddResult(t: Tables, file: Text, url: URL, user: User, src: Entropy, writeOk: bool)
    : (r: (AddOutcome, Text))
  {
    var o := AddLinkResult(t, url, user, src);
    if o.err.Some? then (o, file)
    else if writeOk then (o, file + NewRecord(o.id, user, url) + ['\n'])
    else (AddOutcome(o.tables, o.id, Some(ErrWrite), o.rest), file)
  }

  /** What Add returns and writes: AddLink's maps and identifier; a failed
      AddLink writes nothing and returns its own error; a successful one
      appends exactly its NEW line and newline, or returns ErrWrite with the
      file unchanged. */
  lemma FileAddOutcome(t: Tables, file: Text, url: URL, user: User, src: Entropy, writeOk: bool)
    ensures FileAddResult(t, file, url, user, src, writeOk).0.tables == AddLinkResult(t, url, user, src).tables
    ensures FileAddResult(t, file, url, user, src, writeOk).0.id == AddLinkResult(t, url, user, src).id
    ensures AddLinkResult(t, url, user, src).err.Some? ==>
              FileAddResult(t, file, url, user, src, writeOk) == (AddLinkResult(t, url, user, src), file)
    ensures AddLinkResult(t, url, user, src).err.None? && !writeOk ==>
              FileAddResult(t, file, url, user, src, writeOk).1 == file
              && FileAddResult(t, file, url, user, src, writeOk).0.err == Some(ErrWrite)
    ensures AddLinkResult(t, url, user, src).err.None? && writeOk ==>
              FileAddResult(t, file, url, user, src, writeOk).0 == AddLinkResult(t, url, user, src)
              && FileAddResult(t, file, url, user, src, writeOk).1
                 == file + NewRecord(AddLinkResult(t, url, user, src).id, user, url) + ['\n']
  {
  }

  /** DeleteUserLinks: for each identifier that DeleteUserLink deleted, the
      DELETE record, in order; failed writes are only logged. */
  function FileDeleteAll(t: Tables, file: Text, ids: seq<ID>, user: User, writeOk: bool): (r: (Tables, Text))
    ensures r.0 == DeleteAll(t, ids, user)
    ensures !writeOk ==> r.1 == file
    decreases |ids|
  {
    if ids == [] then (t, file)
    else
      var prev := FileDeleteAll(t, file, ids[..|ids| - 1], user, writeOk);
      var id := ids[|ids| - 1];
      var d := DeleteLinkResult(prev.0, id, user);
      assert ids == ids[..|ids| - 1] + [id];
      DeleteAllSnoc(t, ids[..|ids| - 1], id, user);
      (d.0, if d.1 && writeOk then prev.1 + DeleteRecord(id, user) + ['\n'] else prev.1)
  }

  /** A successful Add keeps the file in step with the maps. */
  lemma FileAddSynced(t: Tables, file: Text, url: URL, user: User, src: Entropy)
    requires Synced(t, file)
    ensures Synced(FileAddResult(t, file, url, user, src, true).0.tables, FileAddResult(t, file, url, user, src, true).1)
  {
    var o := AddLinkResult(t, url, user, src);
    if o.err.None? {
      ValidIdClean(o.id);
      ApplyNewRecord(t, o.id, user, url);
      NewRecordFields(o.id, user, url);
      AppendSynced(t, file, NewRecord(o.id, user, url));
    }
  }

  /** DeleteUserLinks keeps the file in step with the maps. */
  lemma {:induction false} FileDeleteSynced(t: Tables, file: Text, ids: seq<ID>, user: User)
    requires Synced(t, file)
    ensures Synced(FileDeleteAll(t, file, ids, user, true).0, FileDeleteAll(t, file, ids, user, true).1)
    decreases |ids|
  {
    if ids != [] {
      var init := ids[..|ids| - 1];
      var id := ids[|ids| - 1];
      FileDeleteSynced(t, file, init, user);
      var prev := FileDeleteAll(t, file, init, user, true);
      var d := DeleteLinkResult(prev.0, id, user);
      if d.1 {
        FileKeysClean(prev.1);
        ApplyDeleteRecord(prev.0, id, user);
        DeleteRecordFields(id, user);
        AppendSynced(prev.0, prev.1, DeleteRecord(id, user));
      }
    }
  }

  /** A file's complete lines are all that load sees: an unterminated tail,
      such as a write cut short, is dropped. */
  lemma ReplayIgnoresTail(file: Text, tail: Text)
    requires AtLineBoundary(file) && Readable(file)
    requires '\n' !in tail
    ensures Readable(file + tail) && FileState(file + tail) == FileState(file)
  {
    LinesIgnoreTail(file, tail);
  }

  /** The other side of the same coin: a record appended after such a tail
      is glued to it, and replay sees one line that starts with the tail, not
      the record. */
  lemma TailSwallowsRecord(file: Text, tail: Text, line: Text)
    requires AtLineBoundary(file)
    requires tail != [] && '\n' !in tail && '\n' !in line
    ensures Lines(file + tail + line + ['\n']) == Lines(file) + [tail + line]
  {
    assert '\n' !in tail + line;
    LinesAppend(file, tail + line);
    assert file + tail + line + ['\n'] == file + (tail + line) + ['\n'];
  }

  // ---------------------------------------------------------------------
  // The storage object

  class FileStorage {
    const mem: MemStorage
    var file: Text

    /** NewFileStorage: empty maps, then load. A line that load cannot take
        apart would make it index past the end of the split line, so the
        file must be Readable. */
    constructor(file0: Text)
      requires Readable(file0)
      ensures file == file0 && fresh(mem)
      ensures mem.State() == FileState(file0)
    {
      mem := new MemStorage();
      file := file0;
      new;
      Load();
    }

    /** load: a ReadBytes('\n') loop that stops at io.EOF, dispatching each
        trimmed, comma-split line; per-line errors are only logged. */
    method Load()
      requires Readable(file)
      modifies mem
      ensures mem.State() == Replay(old(mem.State()), Lines(file))
    {
      var rest := file;
      var i := 0;
      while true
        invariant forall k | 0 <= k < |Lines(rest)| :: Indexable(Lines(rest)[k])
        invariant Replay(old(mem.State()), Lines(file)) == Replay(mem.State(), Lines(rest))
        decreases |rest|
      {
        var r := ReadBytes(rest, '\n');
        ReadLine(rest);
        if r.1 {
          break;
        }
        var chunk := r.0;
        var after := rest[|chunk|..];
        var line := Trim(chunk, '\n');
        var splitted := Split(line, ',');
        var err: Option<Error> := None;
        if splitted[0] == "NEW" {
          err := LoadNew(splitted);
        } else if splitted[0] == "DELETE" {
          err := LoadDelete(splitted);
        }
        assert Lines(after) == Lines(rest)[1..];
        rest := after;
        i := i + 1;
      }
    }

    /** loadNew. */
    method LoadNew(splitted: seq<Text>) returns (err: Option<Error>)
      requires NewIndexable(splitted)
      modifies mem
      ensures (mem.State(), err) == LoadNewResult(old(mem.State()), splitted)
    {
      var id := splitted[1];
      var user := Uuid.Parse(splitted[2]);
      if user.None? {
        return Some(ErrUnableParseUser);
      }
      var data := Base64.Decode(splitted[3]);
      if data.None? {
        return Some(ErrUnableDecodeURL);
      }
      var url := data.value;
      mem.idLinkDataDictionary := mem.idLinkDataDictionary[id := LinkData([], url, user.value, false)];
      mem.existingURLs := mem.existingURLs[url := id];
      return None;
    }

    /** loadDelete. */
    method LoadDelete(splitted: seq<Text>) returns (err: Option<Error>)
      requires |splitted| >= 3
      modifies mem
      ensures (mem.State(), err) == LoadDeleteResult(old(mem.State()), splitted)
    {
      var id := splitted[1];
      var user := Uuid.Parse(splitted[2]);
      if user.None? {
        return Some(ErrUnableParseUser);
      }
      if id !in mem.idLinkDataDictionary {
        return Some(ErrLinkNotExists);
      }
      var link := mem.idLinkDataDictionary[id];
      if link.user != user.value {
        return Some(ErrUserNotMatch);
      }
      link := link.(deleted := true);
      mem.idLinkDataDictionary := mem.idLinkDataDictionary[id := link];
      return None;
    }

    /** write: the data and one newline appended to the file; ok says
        whether the file took them. */
    method Write(data: Text, ok: bool) returns (err: Option<Error>)
      modifies this
      ensures ok ==> file == old(file) + data + ['\n'] && err.None?
      ensures !ok ==> file == old(file) && err == Some(ErrWrite)
    {
      if !ok {
        return Some(ErrWrite);
      }
      file := file + data + ['\n'];
      return None;
    }

    /** Add: AddLink, then the NEW record when it succeeded. */
    method Add(url: URL, user: User, src: Entropy, writeOk: bool) returns (id: ID, err: Option<Error>, rest: Entropy)
      modifies this, mem
      ensures (AddOutcome(mem.State(), id, err, rest), file)
           == FileAddResult(old(mem.State()), old(file), url, user, src, writeOk)
    {
      id, err, rest := mem.AddLink(url, user, src);
      if err.Some? {
        return;
      }
      err := Write(NewRecord(id, user, url), writeOk);
    }

    /** DeleteUserLinks: DeleteUserLink for each identifier, and the DELETE
        record for each one it deleted; always nil. */
    method DeleteUserLinks(ids: seq<ID>, user: User, writeOk: bool) returns (err: Option<Error>)
      modifies this, mem
      ensures (mem.State(), file) == FileDeleteAll(old(mem.State()), old(file), ids, user, writeOk)
      ensures err.None?
    {
      var i := 0;
      while i < |ids|
        invariant 0 <= i <= |ids|
        invariant (mem.State(), file) == FileDeleteAll(old(mem.State()), old(file), ids[..i], user, writeOk)
      {
        assert ids[..i + 1][..i] == ids[..i];
        var ok := mem.DeleteUserLink(ids[i], user);
        if ok {
          var _ := Write(DeleteRecord(ids[i], user), writeOk);
        }
        i := i + 1;
      }
      assert ids[..i] == ids;
      return None;
    }

    /** Close: the file's own Close; ok says whether it succeeded. */
    method Close(ok: bool) returns (err: Option<Error>)
      ensures err.None? <==> ok
    {
      return if ok then None else Some(ErrWrite);
    }
  }
}
