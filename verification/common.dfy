/** Small shared vocabulary: optional values, the abstract clock, file
    writes and directory scans. */
module Common {

  /** A value that may be absent; Python's `None` becomes `None`. */
  datatype Option<T> = None | Some(value: T)

  /** A reading of `time.time()` (or a file's mtime) in seconds, modelled as an
      exact real rather than a floating-point number. */
  type Timestamp = real

  /** How writing a file turns out: completely, not at all (the open
      fails and the file is untouched), or failing after `open(..., 'w')`
      has created or truncated the file, which then holds an incomplete
      text. */
  datatype WriteOutcome = Written | CannotOpen | FailsAfterOpen

  /** A directory scan (`dir.glob("*.exe")`): the directory does not exist, or
      the glob yielded `names` in order and then either ended or raised. */
  datatype Listing = Missing | Listed(names: seq<string>, raises: bool)

  /** The names a scan yields before it ends or raises. */
  function Yielded(l: Listing): seq<string> {
    match l
    case Missing => []
    case Listed(names, _) => names
  }

  /** The scan raised before it ended. */
  predicate Raises(l: Listing) {
    l.Listed? && l.raises
  }
}
