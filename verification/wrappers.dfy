/** The optional value used throughout the model: `Option<&str>` from
    `Vec::get`, `Option<String>` from the HOME lookup. */
module Wrappers {

  datatype Option<+T> = None | Some(value: T)

  /** `Vec::get`: the element at `i` when it exists, `None` past the end. */
  function Get<T>(s: seq<T>, i: nat): (r: Option<T>)
    ensures r.Some? <==> i < |s|
    ensures r.Some? ==> r.value == s[i]
  {
    if i < |s| then Some(s[i]) else None
  }
}
