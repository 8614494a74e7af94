/**
 * What a schema check reports: the issues it found, each on the path of the
 * field it concerns, in the order the fields are declared. A value is
 * accepted exactly when there is no issue.
 */
module Validation {
  datatype Issue = Issue(path: string, message: string)

  /** `z.string().min(n, message)` on field `path`; lengths count characters. */
  function MinLength(path: string, s: string, n: nat, message: string): (issues: seq<Issue>)
    ensures issues == [] <==> |s| >= n
    ensures issues != [] ==> issues == [Issue(path, message)]
  {
    if |s| >= n then [] else [Issue(path, message)]
  }

  /** A check that holds or raises one issue on `path`. */
  function Check(path: string, ok: bool, message: string): (issues: seq<Issue>)
    ensures issues == [] <==> ok
    ensures issues != [] ==> issues == [Issue(path, message)]
  {
    if ok then [] else [Issue(path, message)]
  }
}
