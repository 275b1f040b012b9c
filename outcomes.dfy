/** What a call into the Python layer produces: the value it returned, or the
    NotImplementedError it raised, with the exception's positional arguments
    (`raise NotImplementedError` has none, `raise NotImplementedError(msg)` has one). */
module Outcomes {

  datatype Outcome = Returned(value: int) | NotImplementedError(args: seq<string>)

  /** True when `s` ends with `tail`. */
  predicate EndsWith(s: string, tail: string) {
    |tail| <= |s| && s[|s| - |tail|..] == tail
  }
}
