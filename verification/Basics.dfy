/** Small definitions that several modules share. */
module Basics {

  datatype Option<+T> = None | Some(value: T)

  ghost predicate Distinct<T>(s: seq<T>) {
    forall i, j :: 0 <= i < j < |s| ==> s[i] != s[j]
  }

  function Pow2(n: nat): (p: nat)
    ensures p >= 1
  {
    if n == 0 then 1 else 2 * Pow2(n - 1)
  }

  /** 1 for true, to count with. */
  function B(b: bool): nat {
    if b then 1 else 0
  }

  /** What '$' of a regular expression sees: it also matches just before a final newline. */
  function ChopNewline(s: string): string {
    if s != "" && s[|s|-1] == '\n' then s[..|s|-1] else s
  }
}
