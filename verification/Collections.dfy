/** What several modules ask of sequences. */
module Collections {

  /** The values a sequence holds, in no order. */
  function Elements<T>(s: seq<T>): set<T> { set x | x in s }

  lemma ElementsSnoc<T>(s: seq<T>)
    requires s != []
    ensures Elements(s) == Elements(s[..|s| - 1]) + {s[|s| - 1]}
  {
    assert s == s[..|s| - 1] + [s[|s| - 1]];
  }
}
