/** Datatypes shared by the models of the five controllers. */
module Common {

  /** Go's nil-able pointer: an absent optional field is None. */
  datatype Option<+T> = None | Some(value: T) {
    function GetOr(default: T): T {
      match this
      case None => default
      case Some(v) => v
    }
  }

  /** No element occurs twice. */
  ghost predicate Distinct<T>(s: seq<T>) {
    forall i, j :: 0 <= i < j < |s| ==> s[i] != s[j]
  }

  /** Reading a Go string map: a missing key reads as "". */
  function Lookup(m: map<string, string>, k: string): string {
    if k in m then m[k] else ""
  }

  function Min(a: int, b: int): int {
    if a < b then a else b
  }

  function Max(a: int, b: int): int {
    if a < b then b else a
  }
}
