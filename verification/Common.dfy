/** What every module shares. */
module Common {
  datatype Option<+T> = None | Some(value: T)

  lemma LastCounts<T(!new)>(s: seq<T>, t: T)
    requires s != []
    ensures multiset(s)[t] == multiset(s[..|s| - 1])[t] + if s[|s| - 1] == t then 1 else 0
  {
    assert s == s[..|s| - 1] + [s[|s| - 1]];
  }
}
