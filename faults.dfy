/**
 * The ways building or reviewing a candidate aborts the run: the exceptions
 * the constructor lets escape, and the exit a standard's empty result causes.
 */
module Faults {

  /** An absolute, normalised path as its list of names below `/`. */
  type Path = seq<string>

  datatype Fault =
    | NoRoleMetadata         // no ancestor `meta/main.yml`: `path` is never bound
    | NotFound(p: Path)      // opening a file that does not exist
    | IsADirectory(p: Path)  // opening a directory as a file
    | Undecodable(p: Path)   // the bytes read are not UTF-8
    | EmptyCheckResult(standardId: string)  // a check returned a false result: the run exits
}
