/** What the cmdlet asks of PowerShell's session state and of the file
    system, as oracles that return a tagged outcome. Each "fault" outcome
    carries an exception that no catch clause on its way out matches. */
module Session {
  import opened Records

  /** An exception the resolvers throw that the `catch` around them does
      not handle: anything but ItemNotFoundException. A FileNotFoundException
      or UnauthorizedAccessException from a resolver escapes, because only
      SplitContentPath catches those. */
  type NotItemNotFound = e: string | e != "ItemNotFoundException"
    witness "IOException"

  /** An exception from opening a file that no catch clause on its way out
      handles: neither FileNotFoundException nor UnauthorizedAccessException
      (SplitContentPath), nor ItemNotFoundException (the loops). */
  type Uncaught = e: string | e != "ItemNotFoundException" && e != "FileNotFoundException" && e != "UnauthorizedAccessException"
    witness "IOException"

  /** The name of the provider the cmdlet accepts for wildcard paths. */
  const FileSystem: string := "FileSystem"

  /** GetResolvedProviderPathFromPSPath(pattern, out provider): the matching
      provider paths (possibly none) and the provider's name, or the
      ItemNotFoundException it throws, or some other exception. */
  datatype Resolution =
    | Resolved(paths: seq<string>, provider: string)
    | ItemNotFound
    | ResolutionFault(exception: NotItemNotFound)

  /** GetUnresolvedProviderPathFromPSPath(literalPath). */
  datatype LiteralResolution =
    | ProviderPath(path: string)
    | LiteralNotFound
    | LiteralFault(exception: NotItemNotFound)

  /** A file as the two readers see it: its bytes with the caps on the sizes
      of successive reads, and the lines its decoder yields. */
  datatype FileImage = FileImage(bytes: seq<byte>, grants: seq<pos>, lines: seq<string>)

  /** Opening a path for reading (File.OpenRead, or new StreamReader). */
  datatype Opening =
    | Opened(image: FileImage)
    | FileNotFound
    | AccessDenied
    | OpenFault(exception: Uncaught)

  datatype SessionState = SessionState(
    resolve: string -> Resolution,
    unresolve: string -> LiteralResolution,
    open: string -> Opening)
}
