# urlshortener link storage, in Dafny

This project models the link storage engine of the urlshortener service
(ImpressionableRaccoon/urlshortener), and proves properties of that model.
The service turns a URL into a five-character identifier. It stores the link
together with its owner (a UUID). It later answers the URL for an identifier,
lists an owner's links, and soft-deletes them. The model covers the following.

- **The identifier generator** (`IdGen`, `utils.GenRandomID`): five characters
  from a 62-character alphabet, drawn with crypto/rand. The random source is an
  explicit byte sequence; running out of it is the read error.
- **The in-memory backend** (`MemoryStorage`, `memory.MemStorage`): two maps.
  One goes from URL to identifier for deduplication, the other from identifier
  to record. Its state functions are the reference the other backends are
  proved against.
- **The append-log backend** (`DiskStorage`, `disk.FileStorage`): a MemStorage
  plus a text log.
  - It appends the lines `NEW,<id>,<uuid>,<base64 url>` and `DELETE,<id>,<uuid>`.
  - On opening, it replays the log line by line.
  - Supporting modules: `Strings` (bufio's ReadBytes, strings.Split/Trim, the
    lines of a file), `Uuid` (the canonical UUID text of section 3 of RFC 4122)
    and `Base64` (the standard alphabet of section 4 of RFC 4648).
- **The PostgreSQL backend** (`PostgresStorage`, `postgres.PsqlStorage`), over
  an abstract `links` table with a primary key on id and a unique index on url.
  - Which statements fail is a script given with the database.
  - `Add` retries while the insert affects no row.
  - The delete worker is a sequential state machine over the events it
    receives. The events are requests, timer expiries and the shutdown signal.
- **The backend selector** (`Storager`, `storage.NewStorager`): database, then
  log file, then memory.
- **The older versions still in the tree**, each in its own module:
  - `LegacyMemoryStorage`: repositories/memoryStorage.go.
  - `LegacyCsvStorage`: repositories/fileStorage.go, an `id,url,uuid` log.
  - `LegacyIdUrlStorage`: repositories/file/storage.go, an `id,url` log.
  - `LegacyMapStorage`: storage/storage.go.
  - `LegacyGlobalShortener`: storage/main.go.
  - `LegacyPgxStorage`: repositories/psqlStorage.go.
  - `MathRandId` is the math/rand generator shared by the two map-only
    versions, and `UrlMap` is their common Get.

Code that changes state is modelled as classes. Each method is proved equal to
a function of the old state, and the properties are proved about those
functions. Go maps become fields of type `map`, and files become the text they
hold. Where the order of Go's map iteration shows (`GetUserLinks`), the model
leaves it open and states the result as a set, each record once.

## Model

| member | source | states |
|---|---|---|
| IdGen.ValidIdClean | internal/utils/id.go:11 | no generated identifier holds a comma or a newline, so it fits in one field of a log line |
| IdGen.RandIndex | internal/utils/id.go:17-22 | every drawn index lies in [0, 62) and consumes at least one byte of the source |
| IdGen.GenerateValid | internal/utils/id.go:10-31 | a generated identifier has exactly idLength = 5 characters, each from the 62-character alphabet |
| IdGen.DrawEnough | internal/utils/id.go:21-31 | a source holding enough acceptable bytes always yields an identifier, consuming exactly those bytes |
| IdGen.GenRandomID | internal/utils/id.go:16-34 | the builder loop returns the generated identifier, or ("", err) exactly when the random source fails |
| IdGen.GenerateUnused | internal/repositories/memory/storage.go:49-55 | the retry loop's identifier is not among the taken keys and is a valid identifier |
| IdGen.GenerateUnusedFirst | internal/repositories/memory/storage.go:49-55 | the retry loop stops at the first identifier that is not taken |
| IdGen.GenerateUnusedSkip | internal/repositories/memory/storage.go:49-55 | a taken identifier is skipped and the loop draws again from the rest of the source |
| MemoryStorage.AddLinkResult | internal/repositories/memory/storage.go:40-64 | a known URL returns its identifier with ErrURLAlreadyExists and nothing changes; a generator failure returns "" and changes nothing; otherwise a fresh valid id maps to {url, user, not deleted} and url maps to id |
| MemoryStorage.UserLinks | internal/repositories/memory/storage.go:87-106 | every reported link belongs to the user, is not deleted and exists |
| MemoryStorage.DeleteLinkResult | internal/repositories/memory/storage.go:119-135 | the answer is true exactly when the id exists and the user owns it; only then is the record's deleted flag set and nothing else changes |
| MemoryStorage.DeleteAllSnoc | internal/repositories/memory/storage.go:110-116 | deleting a list and then one more id is deleting the longer list |
| MemoryStorage.AddLinkConsistent | internal/repositories/memory/storage.go:57-61 | AddLink keeps the two maps in agreement (each URL names the record holding it, and back) |
| MemoryStorage.DeleteLinkConsistent | internal/repositories/memory/storage.go:131-132 | DeleteUserLink keeps the two maps in agreement |
| MemoryStorage.DeleteAllConsistent | internal/repositories/memory/storage.go:110-116 | DeleteUserLinks keeps the two maps in agreement |
| MemoryStorage.AddThenLookup | internal/repositories/memory/storage.go:57-76 | after a successful add, Get of the new id answers (url, false, nil) and every other id answers as before |
| MemoryStorage.AddTwice | internal/repositories/memory/storage.go:44-47 | adding the same URL again returns the first identifier with ErrURLAlreadyExists, for any user and source |
| MemoryStorage.InsertCounts | internal/repositories/memory/storage.go:142-151 | a record under a new id raises the URL count by one and adds exactly its owner to the owners |
| MemoryStorage.AddCounts | internal/repositories/memory/storage.go:142-151 | a successful add raises the URL count by one and adds the user to the owners |
| MemoryStorage.DeleteForeignNoop | internal/repositories/memory/storage.go:123-129 | an unknown id or another owner returns false and changes nothing |
| MemoryStorage.DeleteIdempotent | internal/repositories/memory/storage.go:131-134 | deleting twice is deleting once |
| MemoryStorage.DeletedStillDeduplicates | internal/repositories/memory/storage.go:131-134 | a deleted record keeps its URL: Get reports it deleted, and adding the URL again returns the old id with ErrURLAlreadyExists |
| MemoryStorage.DeleteKeepsStats | internal/repositories/memory/storage.go:142-151 | deleting changes neither the URL count nor the owner count |
| MemoryStorage.DeleteHidesLink | internal/repositories/memory/storage.go:94-96 | a deleted record leaves exactly its own entry out of its owner's list |
| MemoryStorage.InsertShowsLink | internal/repositories/memory/storage.go:89-104 | a record stored under a new id adds exactly its entry to the owner's list |
| MemoryStorage.AddShowsLink | internal/repositories/memory/storage.go:57-61 | a successful add adds exactly {id, url, user, false} to the owner's list |
| MemoryStorage.MemStorage.constructor | internal/repositories/memory/storage.go:21-28 | both maps start empty |
| MemoryStorage.MemStorage.AddLink | internal/repositories/memory/storage.go:40-64 | the dedup check and retry loop leave the maps and results of AddLinkResult |
| MemoryStorage.MemStorage.Add | internal/repositories/memory/storage.go:31-37 | Add is AddLink |
| MemoryStorage.MemStorage.Get | internal/repositories/memory/storage.go:67-77 | the URL and deleted flag of a known id, or ("", false, ErrURLNotFound) |
| MemoryStorage.MemStorage.GetUserLinks | internal/repositories/memory/storage.go:80-107 | exactly the user's non-deleted records, each once, and no error |
| MemoryStorage.MemStorage.DeleteUserLink | internal/repositories/memory/storage.go:119-135 | the new maps and the answer are DeleteLinkResult's |
| MemoryStorage.MemStorage.DeleteUserLinks | internal/repositories/memory/storage.go:110-116 | DeleteUserLink for each id in order; always nil |
| MemoryStorage.MemStorage.GetStats | internal/repositories/memory/storage.go:138-152 | URLs is the number of records, deleted ones included, and Users the number of distinct owners |
| MemoryStorage.MemStorage.Pool | internal/repositories/memory/storage.go:155-157 | always true |
| MemoryStorage.MemStorage.Close | internal/repositories/memory/storage.go:160-162 | always nil |
| Uuid.ParseFormat | internal/repositories/disk/storage.go:116-119 | parsing the canonical text of a UUID gives the UUID back |
| Uuid.FormatInjective | internal/repositories/disk/storage.go:56 | distinct owners are written as distinct texts |
| Base64.DecodeEncode | internal/repositories/disk/storage.go:122-126 | decoding the standard base64 encoding of a URL gives the URL back |
| Base64.EncodeClean | internal/repositories/disk/storage.go:56 | the encoded URL holds no comma and no newline, so it stays one field of one line |
| Strings.ReadBytes | internal/repositories/disk/storage.go:87-90 | the chunk read ends at the first delimiter, or is the whole rest with io.EOF when there is none |
| Strings.SplitJoin | internal/repositories/disk/storage.go:96 | splitting fields joined by a separator they do not hold gives the fields back |
| Strings.JoinSplit | internal/repositories/disk/storage.go:96 | joining the pieces of a split gives the text back |
| Strings.TrimDelimited | internal/repositories/disk/storage.go:95 | trimming the delimiter off a chunk read up to it gives the data before it |
| Strings.LinesFromPartial | internal/repositories/disk/storage.go:87-90 | an unterminated last chunk yields no line |
| DiskStorage.NewRecordFields | internal/repositories/disk/storage.go:56 | the NEW line splits into exactly NEW, id, uuid text and base64 url, and holds no newline |
| DiskStorage.DeleteRecordFields | internal/repositories/disk/storage.go:65 | the DELETE line splits into exactly DELETE, id and uuid text, and holds no newline |
| DiskStorage.LoadNewResult | internal/repositories/disk/storage.go:114-135 | a bad UUID gives ErrUnableParseUser (also on a three-field line, before the URL field is read) and bad base64 gives ErrUnableDecodeURL, both changing nothing; otherwise both maps are set, overwriting |
| DiskStorage.ShortNewLineSkipped | internal/repositories/disk/storage.go:96-119 | the three-field line NEW,x,y is a line load can take apart without indexing past its fields: loadNew rejects its owner with ErrUnableParseUser, and load carries on with the maps unchanged |
| DiskStorage.LoadDeleteResult | internal/repositories/disk/storage.go:137-156 | a bad UUID, an unknown id (ErrLinkNotExists) or another owner (ErrUserNotMatch) changes nothing; otherwise only that record is marked deleted |
| DiskStorage.ReplaySnoc | internal/repositories/disk/storage.go:86-109 | the replay of one more line is that line applied to the replay so far |
| DiskStorage.ApplyNewRecord | internal/repositories/disk/storage.go:114-135 | replaying a NEW line stores exactly the record AddLink stored |
| DiskStorage.ApplyDeleteRecord | internal/repositories/disk/storage.go:137-156 | replaying a DELETE line does what DeleteUserLink did |
| DiskStorage.AppendSynced | internal/repositories/disk/storage.go:158-168 | appending a record and its newline to a file that mirrors the maps keeps it mirroring them |
| DiskStorage.ReplayKeysClean | internal/repositories/disk/storage.go:115 | identifiers replayed from a log hold no comma or newline |
| DiskStorage.FileKeysClean | internal/repositories/disk/storage.go:79-112 | every identifier of a loaded log holds no comma or newline |
| DiskStorage.FileAddOutcome | internal/repositories/disk/storage.go:46-58 | the maps are AddLink's; a failed AddLink writes nothing and returns its id and error; a success appends exactly one NEW line, or returns the write error |
| DiskStorage.FileDeleteAll | internal/repositories/disk/storage.go:61-72 | the maps are DeleteUserLinks'; a failed write appends nothing |
| DiskStorage.FileAddSynced | internal/repositories/disk/storage.go:46-58 | after Add, reopening the file gives exactly the maps in memory, for every URL |
| DiskStorage.FileDeleteSynced | internal/repositories/disk/storage.go:61-72 | after DeleteUserLinks, reopening the file gives exactly the maps in memory |
| DiskStorage.ReplayIgnoresTail | internal/repositories/disk/storage.go:87-90 | an unterminated tail does not change what load reads |
| DiskStorage.TailSwallowsRecord | internal/repositories/disk/storage.go:87-90 | a record appended after an unterminated tail is read as one line with that tail |
| DiskStorage.FileStorage.constructor | internal/repositories/disk/storage.go:30-43 | NewFileStorage starts from empty maps and loads the file, whose state it then holds |
| DiskStorage.FileStorage.Load | internal/repositories/disk/storage.go:79-112 | the ReadBytes loop applies the file's complete lines in order |
| DiskStorage.FileStorage.LoadNew | internal/repositories/disk/storage.go:114-135 | the maps and the error are LoadNewResult's |
| DiskStorage.FileStorage.LoadDelete | internal/repositories/disk/storage.go:137-156 | the maps and the error are LoadDeleteResult's |
| DiskStorage.FileStorage.Write | internal/repositories/disk/storage.go:158-168 | a write appends the data and exactly one newline; a failed write appends nothing and returns the error |
| DiskStorage.FileStorage.Add | internal/repositories/disk/storage.go:46-58 | the maps, file and results are FileAddResult's |
| DiskStorage.FileStorage.DeleteUserLinks | internal/repositories/disk/storage.go:61-72 | the maps and file are FileDeleteAll's; always nil |
| DiskStorage.FileStorage.Close | internal/repositories/disk/storage.go:75-77 | the error of the file's Close |
| PostgresStorage.AddResult | internal/repositories/postgres/storage.go:61-110 | nil means a fresh valid id and a new URL stored as one row; ErrURLAlreadyExists carries the stored id of the URL; any other error returns "" with the generator's or the statement's error; no error changes the table |
| PostgresStorage.AddInsertsOneRow | internal/repositories/postgres/storage.go:98-109 | Add returns nil exactly when the table gained one row |
| PostgresStorage.WithRowConsistent | internal/repositories/postgres/storage.go:77-81 | inserting a new id and a new url keeps the unique index exact |
| PostgresStorage.AddResultConsistent | internal/repositories/postgres/storage.go:61-110 | Add keeps the unique index exact |
| PostgresStorage.AddAgreesWithMemory | internal/repositories/postgres/storage.go:61-110 | while no statement fails, Add gives the in-memory backend's table, id and error |
| PostgresStorage.MarkDeleted | internal/repositories/postgres/storage.go:288-294 | the update marks deleted exactly the rows whose id and owner match a pair of the batch, and changes nothing else |
| PostgresStorage.MarkDeletedPush | internal/repositories/postgres/storage.go:267-268 | one more pair in the batch deletes one more row, as DeleteUserLink does |
| PostgresStorage.FlushAgreesWithMemory | internal/repositories/postgres/storage.go:288-297 | a flush is DeleteUserLink applied to the batch's pairs in order |
| PostgresStorage.Collect | internal/repositories/postgres/storage.go:263-280 | ids and users stay the same length, a batch never exceeds bufferSize and is full exactly when the round ended for that reason |
| PostgresStorage.Run | internal/repositories/postgres/storage.go:244-303 | every flushed batch is non-empty and within bufferSize, and a stopped worker has no pending requests |
| PostgresStorage.CollectReceives | internal/repositories/postgres/storage.go:263-280 | a round loses no request: its batch followed by what remains is everything received |
| PostgresStorage.RunReceives | internal/repositories/postgres/storage.go:244-300 | the flushed batches and the open round hold exactly the requests received, in order |
| PostgresStorage.CollectShutdown | internal/repositories/postgres/storage.go:276-278 | a round ends on shutdown only when the signal came |
| PostgresStorage.RunStops | internal/repositories/postgres/storage.go:250-256 | the worker stops exactly when the shutdown signal is among its events |
| PostgresStorage.RunDeletes | internal/repositories/postgres/storage.go:282-297 | while no flush fails, the table is the in-memory deletes of the flushed pairs; empty batches issue no update |
| PostgresStorage.WorkerAppliesRequests | internal/repositories/postgres/storage.go:244-303 | once shut down with no failed flush, every request received has been applied |
| PostgresStorage.Requests | internal/repositories/postgres/storage.go:177-179 | one item per id, in input order, each with the user |
| PostgresStorage.ReceivedRequests | internal/repositories/postgres/storage.go:176-182 | the worker receives exactly the pairs DeleteUserLinks sent |
| PostgresStorage.DeletePairsForUser | internal/repositories/postgres/storage.go:288-294 | the update over one user's ids is the in-memory DeleteUserLinks |
| PostgresStorage.DeleteThenClose | internal/repositories/postgres/storage.go:213-228 | DeleteUserLinks followed by Close leaves the table the in-memory DeleteUserLinks leaves |
| PostgresStorage.Database.ExecInsert | internal/repositories/postgres/storage.go:77-81 | a failed statement changes nothing; a taken id affects no row; a stored URL is a unique violation; otherwise one row is inserted |
| PostgresStorage.Database.QueryIdByUrl | internal/repositories/postgres/storage.go:85-86 | the stored id of the URL, sql.ErrNoRows when there is none, or the statement's error |
| PostgresStorage.Database.ExecMarkDeleted | internal/repositories/postgres/storage.go:288-297 | the table is the flush's, and the error says whether the statement failed |
| PostgresStorage.PsqlStorage.constructor | internal/repositories/postgres/storage.go:37-58 | the storage over an open database, with nothing yet sent to the worker |
| PostgresStorage.PsqlStorage.Add | internal/repositories/postgres/storage.go:61-110 | the retry loop leaves the table and results of AddResult |
| PostgresStorage.PsqlStorage.DeleteUserLinks | internal/repositories/postgres/storage.go:176-182 | one request per id is sent, in order, and nil returned |
| PostgresStorage.PsqlStorage.Close | internal/repositories/postgres/storage.go:213-228 | the shutdown signal is sent, and the database's Close error is returned |
| PostgresStorage.PsqlStorage.CollectRound | internal/repositories/postgres/storage.go:258-280 | the inner loop of a round ends with the batch, stop reason and unread events of Collect: full at bufferSize, or at the timer, or at the shutdown signal |
| PostgresStorage.PsqlStorage.DeleteUserLinksWorker | internal/repositories/postgres/storage.go:244-303 | the nested loops leave the table, flushed batches, open round and stopped flag of Run |
| Storager.GetStoragerType | internal/storage/storager.go:64-72 | PsqlStorage exactly when a DSN is set; FileStorage exactly when only a file path is set; MemoryStorage exactly when both are empty |
| Storager.NewStorager | internal/storage/storager.go:47-62 | the backend built is of the kind getStoragerType names, and the call fails exactly when the log file cannot be opened |
| LegacyMemoryStorage.AddResult | internal/repositories/memoryStorage.go:24-45 | a known URL returns its id with ErrURLAlreadyExists and nothing changes; otherwise a fresh valid id maps to {url, user} and url to id; a generator failure returns "" |
| LegacyMemoryStorage.AddRefinedByCurrent | internal/repositories/memoryStorage.go:24-45 | this Add is the current AddLink with the deleted flags forgotten |
| LegacyMemoryStorage.UserLinksRefinedByCurrent | internal/repositories/memoryStorage.go:56-71 | without deleted records, this GetUserLinks reports what the current one reports |
| LegacyMemoryStorage.AddThenLookup | internal/repositories/memoryStorage.go:38-54 | after Add, Get of the id returns the URL and other ids answer as before |
| LegacyMemoryStorage.AddShowsLink | internal/repositories/memoryStorage.go:56-71 | Add adds exactly {id, url} to the owner's list |
| LegacyMemoryStorage.MemStorage.constructor | internal/repositories/memoryStorage.go:15-22 | both maps start empty |
| LegacyMemoryStorage.MemStorage.Add | internal/repositories/memoryStorage.go:24-45 | the maps and results are AddResult's |
| LegacyMemoryStorage.MemStorage.Get | internal/repositories/memoryStorage.go:47-54 | the URL of a known id, or ("", ErrURLNotFound) |
| LegacyMemoryStorage.MemStorage.GetUserLinks | internal/repositories/memoryStorage.go:56-71 | every record of the owner, deleted or not, each once |
| LegacyMemoryStorage.MemStorage.Pool | internal/repositories/memoryStorage.go:73-75 | always true |
| LegacyCsvStorage.LoadLine | internal/repositories/fileStorage.go:43-55 | a line fails exactly when its third field is not a UUID |
| LegacyCsvStorage.BadOwnerEndsReplay | internal/repositories/fileStorage.go:32-56 | a line whose owner does not parse ends the replay with a failure, whatever the later lines hold, short ones included |
| LegacyCsvStorage.LoadResultSnoc | internal/repositories/fileStorage.go:32-56 | the replay of one more line is that line loaded on top of the replay so far, after the first failure nothing |
| LegacyCsvStorage.FileAddResult | internal/repositories/fileStorage.go:61-90 | the maps are the legacy Add's; a success appends exactly one `id,url,uuid` line, a failed write returns "" with the maps already changed |
| LegacyCsvStorage.CsvLineFields | internal/repositories/fileStorage.go:80 | a line with a clean URL splits into exactly id, url and uuid |
| LegacyCsvStorage.AppendLoads | internal/repositories/fileStorage.go:32-56 | appending one line to a file that mirrors the maps loads that line on top of them |
| LegacyCsvStorage.LoadCsvLine | internal/repositories/fileStorage.go:43-55 | loading a written line stores the same id, url and owner |
| LegacyCsvStorage.FileAddSynced | internal/repositories/fileStorage.go:61-90 | for a URL without comma or newline, reopening after Add gives the maps in memory |
| LegacyCsvStorage.CommaLineFields | internal/repositories/fileStorage.go:80 | the line for the URL "a,b" splits into four fields |
| LegacyCsvStorage.CommaLineFails | internal/repositories/fileStorage.go:41-49 | the line for the URL "a,b" has the three fields the reload indexes, and its third field is not a UUID, so loading it fails |
| LegacyCsvStorage.AddBreaksReload | internal/repositories/fileStorage.go:32-56 | after Add stores a link whose line does not load, reopening the file fails |
| LegacyCsvStorage.CommaUrlBreaksReload | internal/repositories/fileStorage.go:41-49 | after adding the URL "a,b", reopening the file fails |
| LegacyCsvStorage.FileStorage.constructor | internal/repositories/fileStorage.go:22-28 | empty maps over the given file |
| LegacyCsvStorage.FileStorage.Add | internal/repositories/fileStorage.go:61-90 | the maps, file and results are FileAddResult's |
| LegacyCsvStorage.FileStorage.Write | internal/repositories/fileStorage.go:80-88 | the line and its newline are appended, or the write error is returned with the file unchanged; the maps are untouched |
| LegacyCsvStorage.FileStorage.Get | internal/repositories/fileStorage.go:92-98 | the URL of a known id, or ("", URLNotFound) |
| LegacyCsvStorage.FileStorage.GetUserLinks | internal/repositories/fileStorage.go:100-115 | every record of the owner, each once |
| LegacyCsvStorage.FileStorage.Pool | internal/repositories/fileStorage.go:117-119 | always true |
| LegacyCsvStorage.FileStorage.Close | internal/repositories/fileStorage.go:121-123 | the error of the file's Close |
| LegacyCsvStorage.NewFileStorage | internal/repositories/fileStorage.go:22-59 | construction succeeds exactly when every line's owner parses, holding the replayed maps; otherwise nil and the error |
| LegacyIdUrlStorage.ReadRecordAppend | internal/repositories/file/storage.go:35-53 | a record read whole is read the same whatever follows it |
| LegacyIdUrlStorage.ReplayRecord | internal/repositories/file/storage.go:49-52 | reading a record written by Add maps its id to its URL, the delimiters trimmed |
| LegacyIdUrlStorage.ReplayAppend | internal/repositories/file/storage.go:35-53 | the records of a file of whole records are read before whatever follows |
| LegacyIdUrlStorage.CompleteAppend | internal/repositories/file/storage.go:68 | whole records followed by whole records are whole records |
| LegacyIdUrlStorage.PartialIdDropped | internal/repositories/file/storage.go:36-39 | a clean EOF before an id ends the replay successfully, dropping a partial id |
| LegacyIdUrlStorage.UnterminatedRecordFails | internal/repositories/file/storage.go:44-47 | an id without a terminated URL after it makes construction fail |
| LegacyIdUrlStorage.AddResult | internal/repositories/file/storage.go:58-78 | a fresh valid id maps to the URL with no deduplication and the record is appended; a generator failure changes nothing; a failed write returns "" with the map already changed |
| LegacyIdUrlStorage.AddSynced | internal/repositories/file/storage.go:58-78 | after Add, reopening the file gives the map in memory, for every URL without a newline, commas included |
| LegacyIdUrlStorage.AddThenReopen | internal/repositories/file/storage.go:80-86 | after Add and a reopen, Get of the id returns the URL |
| LegacyIdUrlStorage.Storage.constructor | internal/repositories/file/storage.go:27-31 | an empty map over the given file |
| LegacyIdUrlStorage.Storage.Add | internal/repositories/file/storage.go:58-78 | the map, file and results are AddResult's |
| LegacyIdUrlStorage.Storage.Get | internal/repositories/file/storage.go:80-86 | the URL of a known id, or ("", "URL not found") |
| LegacyIdUrlStorage.Storage.Close | internal/repositories/file/storage.go:88-90 | the error of the file's Close |
| LegacyIdUrlStorage.NewStorage | internal/repositories/file/storage.go:21-56 | an empty filename gives (nil, error); otherwise construction succeeds exactly when the replay does, holding its map |
| UrlMap.Lookup | internal/storage/storage.go:36-42 | no error exactly for a key; otherwise ("", "URL not found") |
| UrlMap.LookupStore | internal/storage/storage.go:31-40 | after storing url under id, Get(id) returns url and every other id answers as before |
| MathRandId.Spell | internal/storage/storage.go:22-28 | one character of the alphabet per drawn index |
| MathRandId.Mint | internal/storage/storage.go:19-29 | the retry loop's identifier is valid and not already a key |
| MathRandId.MintFirst | internal/storage/storage.go:19 | the loop stops at the first identifier that is not a key |
| MathRandId.MintNothingTaken | internal/storage/storage.go:19-28 | on an empty map the first five draws are the identifier |
| LegacyMapStorage.Storage.constructor | internal/storage/storage.go:44-46 | NewStorage is an empty map |
| LegacyMapStorage.Storage.Add | internal/storage/storage.go:18-34 | the id is Mint's, fresh and valid, and the map is the old one plus id to url, with no deduplication |
| LegacyMapStorage.Storage.Get | internal/storage/storage.go:36-42 | the URL of a key, or ("", "URL not found") |
| LegacyMapStorage.AddThenGet | internal/storage/storage.go:31-40 | Get(Add(url)) returns url and other ids answer as before |
| LegacyGlobalShortener.GenID | internal/storage/main.go:18-28 | genID spells the next five draws, a valid identifier |
| LegacyGlobalShortener.Shortener.constructor | internal/storage/main.go:11 | the global map starts empty |
| LegacyGlobalShortener.Shortener.Make | internal/storage/main.go:30-41 | the id is fresh and valid, and the global map is the old one plus id to url |
| LegacyGlobalShortener.Shortener.Get | internal/storage/main.go:43-49 | the URL of a key, or ("", "URL not found") |
| LegacyPgxStorage.GetResult | internal/repositories/psqlStorage.go:104-116 | the URL exactly when the query reaches the database and the id has a row; otherwise "" with the statement's error or sql no-rows |
| LegacyPgxStorage.RowsAsLegacyMemory | internal/repositories/psqlStorage.go:118-141 | the rows read are what the legacy in-memory GetUserLinks reports for the same records |
| LegacyPgxStorage.RowsIgnoreDeleted | internal/repositories/psqlStorage.go:122 | marking a row deleted does not hide it from this GetUserLinks |
| LegacyPgxStorage.AddThenGet | internal/repositories/psqlStorage.go:104-116 | a link Add stored is what Get returns, when the query reaches the database |
| LegacyPgxStorage.AddThenRows | internal/repositories/psqlStorage.go:118-141 | Add adds exactly {id, url} to its owner's rows |
| LegacyPgxStorage.PgxStorage.constructor | internal/repositories/psqlStorage.go:26-50 | the storage over an open, migrated database |
| LegacyPgxStorage.PgxStorage.Add | internal/repositories/psqlStorage.go:64-102 | the retry loop leaves the table and results of PostgresStorage.AddResult |
| LegacyPgxStorage.PgxStorage.Get | internal/repositories/psqlStorage.go:104-116 | the result is GetResult's and the table is unchanged |
| LegacyPgxStorage.ReadRowsTruncates | internal/repositories/psqlStorage.go:128-140 | as written, a row stream that breaks after n of its rows yields exactly the first n, loses the next one, and reports no error |
| LegacyPgxStorage.ReadRowsLosesRow | internal/repositories/psqlStorage.go:128-140 | a concrete case: two rows sent, the stream breaks after one, the result holds one row and a nil error |
| LegacyPgxStorage.ReadRowsCheckedComplete | internal/repositories/psqlStorage.go:128-140 | with the rows.Err() check, the error is nil exactly when the stream did not break, and a nil error comes with every row sent |
| LegacyPgxStorage.ReadRowsAgree | internal/repositories/psqlStorage.go:128-140 | when the stream does not break, the loop as written and the checked loop both return every row with no error |
| LegacyPgxStorage.PgxStorage.SendRows | internal/repositories/psqlStorage.go:122 | the query's rows list the owner's rows exactly, deleted or not, no identifier twice |
| LegacyPgxStorage.PgxStorage.ReadLoop | internal/repositories/psqlStorage.go:128-140 | the loop appends exactly the rows delivered before the rows run out or the stream breaks |
| LegacyPgxStorage.PgxStorage.GetUserLinks | internal/repositories/psqlStorage.go:118-141 | a failed query gives (nil, err); otherwise the rows read as ReadRows says: no error, a subset of the owner's rows with no identifier twice, and all of them when the stream does not break |
| LegacyPgxStorage.PgxStorage.GetUserLinksChecked | internal/repositories/psqlStorage.go:118-141 | the same with the rows.Err() check: the error is set exactly when the query failed or the stream broke, and a nil error comes with every row of the owner |
| LegacyPgxStorage.PgxStorage.Pool | internal/repositories/psqlStorage.go:143-145 | true exactly when the ping reaches the database |

## Left out

- Concurrency: the mutexes, the worker goroutine, channels, the 1-second buffer timer and the 15-second wait in Close. The worker is a sequential machine over a given order of events, and a timer expiry is one of the events.
- The worker's `ctx.Done()` branch (postgres/storage.go:253-254): its context is `context.Background()`, which is never done.
- PostgresStorage.AddResult: does not model the error path of `RowsAffected` (postgres/storage.go:99-102); lib/pq reports the affected rows of an INSERT without failing.
- PostgresStorage.AddResult: an insert that both reuses an id and repeats a URL counts as an id conflict (zero rows, retry), as PostgreSQL decides the ON CONFLICT arbiter index first.
- The current PostgreSQL backend's Get, GetUserLinks, GetStats, Pool and migrations (postgres/storage.go:113-210, 230-242): they are plain queries outside the storage logic modelled here.
- Context deadlines and cancellation: a deadline that expires before a statement answers is a failure in the fault script. In LegacyPgxStorage.PgxStorage.GetUserLinks, a deadline (psqlStorage.go:119) that expires while the rows are read is a break in the row stream (the `cut` parameter), which the loop as written ends on with a nil error.
- Process I/O: files are the text they hold. An open, read, write, flush or close outcome is a parameter, and read errors other than io.EOF are not modelled. Write failures are all-or-nothing, with no partial writes.
- DiskStorage.FileStorage.constructor: requires that every complete line of the log has the fields load indexes (DiskStorage.Indexable). A NEW line needs three fields, and a fourth only when its owner parses; a DELETE line needs three. Go would panic on a shorter line (disk/storage.go:115-122, 138-139).
- DiskStorage.FileStorage.constructor: cannot fail. The error path of NewFileStorage (disk/storage.go:37-40) is left out: load returns a read error other than io.EOF (disk/storage.go:91-94), such as the one a nil file gives. The file is its contents here, so every read succeeds.
- LegacyCsvStorage.NewFileStorage: requires three fields on each line the replay reaches (LegacyCsvStorage.ReadableLines), for the same reason (fileStorage.go:43-46). Lines after the first one whose owner does not parse are never read and may hold anything.
- DiskStorage.FileStorage.DeleteUserLinks: one write outcome covers all the DELETE lines of a call.
- Uuid.Parse: accepts the canonical 36-character form and the 32-digit form. The `urn:uuid:` prefix and the `{...}` braces form that uuid.Parse also accepts are not modelled, because the log only ever holds the canonical form.
- The random sources:
  - crypto/rand is a finite byte sequence (IdGen.Entropy).
  - math/rand is the sequence of values `Int31n(62)` returned (MathRandId.Draws). Seeding from the clock is part of that sequence.
- LegacyMapStorage.Storage.Add and LegacyGlobalShortener.Shortener.Make: require that the given draws let the retry loop end. With a finite sequence, the source's unbounded loop can only be modelled this way.
- IdGen.GenRandomID, LegacyMapStorage.Storage.Add and LegacyGlobalShortener.GenID: do not return the error of `fmt.Fprint` (internal/utils/id.go:27-30 and the legacy copies), which never fails on a strings.Builder.
- The legacy file backends call `utils.GetRandomID`, which is not part of this model. It is modelled by `utils.GenRandomID`.
- Storager.NewStorager: the backends' own constructors are modelled in their modules, not called from it. The PostgreSQL open and migration errors are not modelled.
- LegacyIdUrlStorage.NewStorage: the only open failure modelled is an empty filename. Other operating-system errors are left out.
- LegacyPgxStorage.PgxStorage.GetUserLinks: a failed `rows.Scan` is not modelled, since an id and a URL always scan into strings.
- LegacyPgxStorage.PgxStorage.GetUserLinks: promises every row of the owner only when the row stream does not break (`cut` is None). A broken stream (a dropped connection, the deadline, a server error after the send) gives the rows before the break with a nil error, because the source never calls rows.Err(); see Findings.
- LegacyPgxStorage.PgxStorage.GetUserLinks: where the stream breaks is a parameter, and the order in which the server sends the rows is left open.
- Base64.Decode: does not skip the '\r' and '\n' characters that StdEncoding.DecodeString ignores; an input holding them is None here. The log never holds line breaks inside a field, since a line ends at the first '\n'.
- LegacyCsvStorage.NewFileStorage: returns ErrUnableParseUser where fileStorage.go:46-49 returns uuid.Parse's own error value; the model has one label for every parse failure of the owner field.
- Logging (`log.Printf`) has no effect on the model.

## Findings

| source | as written | input that shows it | evidently intended | confidence | as-written member | corrected member |
|---|---|---|---|---|---|---|
| internal/repositories/fileStorage.go:80 | Add writes the URL raw into a comma-separated line, and the reload at lines 41-49 splits on every comma | Add of the URL "a,b", then reopening the file: the line splits into four fields, the third ("b") is parsed as the owner's UUID, and construction fails | a stored link survives a reopen whatever its URL holds; the repository's later log backend gets this by base64-encoding the URL field | not executed | LegacyCsvStorage.CommaUrlBreaksReload | DiskStorage.FileAddSynced |
| internal/repositories/psqlStorage.go:130-140 | GetUserLinks reads rows until rows.Next() is false and returns them with a nil error, without calling rows.Err() | an owner with two rows, and the connection drops (or the 10-second deadline expires) after the first row arrives: the call returns one row and no error | a row stream that ends in an error is reported as that error, so that a nil error means the list is complete | not executed | LegacyPgxStorage.ReadRowsTruncates | LegacyPgxStorage.PgxStorage.GetUserLinksChecked |
