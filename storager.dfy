/** storage.NewStorager: which backend the server runs on, chosen from the
    configuration by a fixed priority (database, then log file, then
    memory). */
module Storager {
  import opened Types

  /** The two configuration fields the choice reads. */
  datatype Config = Config(fileStoragePath: Text, databaseDSN: Text)

  /** StoragerType: the three kinds are 1 << iota. */
  type StoragerType = int

  const MemoryStorage: StoragerType := 1
  const FileStorage: StoragerType := 2
  const PsqlStorage: StoragerType := 4

  /** getStoragerType: a DSN wins over a file path, and memory is the
      fallback; each kind is chosen exactly under its own condition. */
  function GetStoragerType(cfg: Config): (k: StoragerType)
    ensures k == PsqlStorage <==> cfg.databaseDSN != []
    ensures k == FileStorage <==> cfg.databaseDSN == [] && cfg.fileStoragePath != []
    ensures k == MemoryStorage <==> cfg.databaseDSN == [] && cfg.fileStoragePath == []
  {
    if cfg.databaseDSN != [] then PsqlStorage
    else if cfg.fileStoragePath != [] then FileStorage
    else MemoryStorage
  }

  /** The backend NewStorager constructs, with the argument it passes on. */
  datatype Backend = PsqlBackend(dsn: Text) | FileBackend(path: Text) | MemoryBackend

  function KindOf(b: Backend): StoragerType
  {
    match b
    case PsqlBackend(_) => PsqlStorage
    case FileBackend(_) => FileStorage
    case MemoryBackend => MemoryStorage
  }

  datatype Opened = Opened(backend: Backend) | OpenFailed(err: Error)

  /** NewStorager: a switch on getStoragerType with memory as the default
      branch. The file backend first opens (or creates) the file; openOk
      says whether that succeeded, and a failure is returned as the error.
      The constructors of the backends themselves are modelled in their own
      modules. */
  function NewStorager(cfg: Config, openOk: bool): (r: Opened)
    ensures r.Opened? ==> KindOf(r.backend) == GetStoragerType(cfg)
    ensures r.OpenFailed? <==> GetStoragerType(cfg) == FileStorage && !openOk
    ensures r == Opened(PsqlBackend(cfg.databaseDSN)) || r == Opened(FileBackend(cfg.fileStoragePath))
         || r == Opened(MemoryBackend) || r == OpenFailed(ErrOpen)
  {
    var k := GetStoragerType(cfg);
    if k == PsqlStorage then Opened(PsqlBackend(cfg.databaseDSN))
    else if k == FileStorage then
      if openOk then Opened(FileBackend(cfg.fileStoragePath)) else OpenFailed(ErrOpen)
    else Opened(MemoryBackend)
  }
}
