/** The value types every storage backend shares: identifiers, URLs, owners,
    link records and the error values the backends return. */
module Types {

  /** A Go string is a sequence of bytes; each char of a Text stands for one byte. */
  type Byte = c: char | c as int < 256

  type Text = seq<Byte>

  /** The short identifier of a link. */
  type ID = Text

  /** The original long URL. */
  type URL = Text

  /** One byte of a binary value. */
  type Octet = x: int | 0 <= x < 256

  /** The owner of a link: a 16-byte UUID. */
  type User = s: seq<Octet> | |s| == 16
    witness [0, 0, 0, 0, 0, 0, 0, 0, 0, 0, 0, 0, 0, 0, 0, 0]

  datatype Option<T> = None | Some(value: T)

  /** A stored link record: the fields the in-memory backend keeps per identifier. */
  datatype LinkData = LinkData(id: ID, url: URL, user: User, deleted: bool)

  /** A link as the older backends report it to its owner. */
  datatype UserLink = UserLink(id: ID, url: URL)

  /** Aggregate counts reported by GetStats. */
  datatype ServiceStats = ServiceStats(urls: nat, users: nat)

  /** The error values of the repositories package, and the failures of the
      collaborators the backends call (random source, file, database). */
  datatype Error =
    | ErrURLNotFound
    | ErrURLAlreadyExists
    | ErrUnableParseUser
    | ErrUnableDecodeURL
    | ErrLinkNotExists
    | ErrUserNotMatch
    | ErrEntropy      // the random source could not be read
    | ErrOpen         // the log file could not be opened or created
    | ErrWrite        // the log file rejected a write or a flush
    | ErrEOF          // a read of the log file met its end (io.EOF)
    | ErrConnection   // the database could not be reached
    | ErrNoRows       // a single-row query matched nothing
    | ErrUniqueViolation  // an insert broke a unique constraint (SQLSTATE 23505)
}
