// What several of the models share.
module Common {
  datatype Option<+T> = None | Some(value: T)

  type Byte = b: int | 0 <= b < 256

  function Last<T>(s: seq<T>): T requires s != [] { s[|s|-1] }

  lemma FrontAndLast<T>(s: seq<T>)
    requires s != []
    ensures s == s[..|s|-1] + [Last(s)]
  {
  }
}
