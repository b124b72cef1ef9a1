/** Cutting one element out of a list that is walked and cut at the same time. */
module Sequences {

  /** The list is what was kept so far and what is still to be looked at. */
  lemma Cut<T>(list: seq<T>, kept: seq<T>, rest: seq<T>)
    requires rest != [] && list == kept + rest
    ensures list[|kept|] == rest[0]
    ensures list[..|kept|] + list[|kept| + 1..] == kept + rest[1..]
    ensures list == (kept + [rest[0]]) + rest[1..]
  {
  }
}
