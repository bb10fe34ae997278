/**
 Task paths, and the entries of a config. A path is the sequence of its
 components; the root, which holds no task, is the empty one.
 */
module Paths {

  type Path = seq<string>

  const ROOT: Path := []

  /** Whether `path` lies in the subtree that `group` names, its top included. */
  predicate AtOrUnder(path: Path, group: Path) {
    group <= path
  }

  /** Neither path can hold a task while the other does: one is a prefix of the other. */
  predicate Overlaps(a: Path, b: Path) {
    AtOrUnder(a, b) || AtOrUnder(b, a)
  }

  function Parent(path: Path): Path {
    if path == ROOT then ROOT else path[..|path| - 1]
  }

  /** The identity of an entry: which file, which key of it, and the mount of the file. */
  datatype Source = Source(file: string, key: string, mount: string) {
    /** A folder's key ends in `/`. */
    predicate IsFolder() {
      |key| > 0 && key[|key| - 1] == '/'
    }
  }
}
