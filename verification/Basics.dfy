/** What is used throughout. */
module Basics {

  const PAGE_SIZE: nat := 0x1000
  const LARGE_PAGE_SIZE: nat := 0x20_0000

  datatype Option<+T> = None | Some(value: T)

  /** No element occurs twice. */
  ghost predicate Distinct<T>(l: seq<T>) {
    forall i, j :: 0 <= i < j < |l| ==> l[i] != l[j]
  }
}
