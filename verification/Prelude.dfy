/** Shared value types, and facts about sequences. */
module Prelude {

  datatype Option<+T> = None | Some(value: T)

  lemma HeadOfAppend<T>(a: seq<T>, b: seq<T>)
    requires a != []
    ensures (a + b)[0] == a[0] && (a + b)[1..] == a[1..] + b
    ensures a + b == [a[0]] + (a[1..] + b)
  {
  }
}
