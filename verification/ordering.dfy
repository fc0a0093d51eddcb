/** The comparators the list views sort with, as total preorders:
    ascending by a text key (standing in for `localeCompare`) and
    descending by an integer key (a score, or a timestamp standing in for
    a parsed date). */
module Ordering {
  import opened Seqs
  import opened Text

  /** `a.key.localeCompare(b.key)`: `a` may come first when its key sorts
      no later. */
  function AscendingText<T>(key: T -> string): (le: (T, T) -> bool) {
    (a, b) => LexLe(key(a), key(b))
  }

  /** `key(b) - key(a)`: `a` may come first when its key is no smaller. */
  function Descending<T>(key: T -> int): (le: (T, T) -> bool) {
    (a, b) => key(a) >= key(b)
  }

  lemma AscendingTextPreorder<T(!new)>(key: T -> string)
    ensures Total(AscendingText(key)) && Transitive(AscendingText(key))
  {
    var le := AscendingText(key);
    forall a, b ensures le(a, b) || le(b, a) {
      LexLeTotal(key(a), key(b));
    }
    forall a, b, c | le(a, b) && le(b, c) ensures le(a, c) {
      LexLeTransitive(key(a), key(b), key(c));
    }
  }

  lemma DescendingPreorder<T(!new)>(key: T -> int)
    ensures Total(Descending(key)) && Transitive(Descending(key))
  {
  }
}
