/** An in-memory directory tree standing in for the file system that both
    traversal engines walk, and the configuration they share. */
module DirTree {

  datatype Option<T> = None | Some(value: T)

  /** `anyhow::Result<T>`: the error payload is only ever logged, so it is not kept. */
  datatype Result<T> = Ok(value: T) | Err

  /** A path, written as the positions of its components in the raw directory
      listings from the root down. `at + [i]` is the i-th entry listed in `at`. */
  type Path = seq<nat>

  /** The last component of an entry's path, as `Path::file_name` sees it. */
  datatype FileName = Utf8(text: string) | NonUtf8 | NoFileName

  /** One entry of a directory listing. `Unreadable` is an entry whose
      `DirEntry` or whose file type could not be obtained. Symbolic links and
      devices are `Other`: their file type is neither file nor directory. */
  datatype Node =
    | File(name: FileName)
    | Dir(name: FileName, listing: Listing)
    | Other(name: FileName)
    | Unreadable

  /** What reading a directory yields: its entries in listing order, or a
      failure to open it. */
  datatype Listing = Entries(entries: seq<Node>) | OpenFailed

  /** The settings the traversal engines read. `matchFile` is the matcher's
      primed `can_match` (see `Scanner.MatchFileIsCanMatch`), `process` says whether the file
      processor succeeds on a path. */
  datatype Config = Config(
    recursive: bool,
    maxDepth: Option<nat>,
    matchFile: string -> bool,
    process: Path -> bool)

  /** The text a file name is matched as: a missing name and a name that is not
      valid UTF-8 both fall back to the empty string. */
  function NameText(n: FileName): (t: string)
    ensures n.Utf8? ==> t == n.text
    ensures !n.Utf8? ==> t == ""
  {
    match n
    case Utf8(text) => text
    case NonUtf8 => ""
    case NoFileName => ""
  }

  /** No entry anywhere below this listing is unreadable. */
  ghost predicate AllReadable(l: Listing)
    decreases l
  {
    l.Entries? ==>
      forall i :: 0 <= i < |l.entries| ==>
        && !l.entries[i].Unreadable?
        && (l.entries[i].Dir? ==> AllReadable(l.entries[i].listing))
  }

  /** Path navigation, independent of any traversal: `rel` leads from `l` to a
      regular file whose name satisfies `matches`. */
  ghost predicate MatchedFileAt(l: Listing, rel: Path, matches: string -> bool)
    decreases |rel|
  {
    && l.Entries?
    && 1 <= |rel|
    && rel[0] < |l.entries|
    && match l.entries[rel[0]]
       case File(n) => |rel| == 1 && matches(NameText(n))
       case Dir(_, sub) => 1 < |rel| && MatchedFileAt(sub, rel[1..], matches)
       case _ => false
  }
}
