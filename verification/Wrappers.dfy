/** Small shared definitions. */
module Wrappers {
  datatype Option<+T> = None | Some(value: T)

  ghost predicate Distinct<T>(s: seq<T>) {
    forall i, j :: 0 <= i < j < |s| ==> s[i] != s[j]
  }

  lemma Reassociate<T>(a: seq<T>, b: seq<T>, c: seq<T>)
    ensures a + b + c == a + (b + c)
  {}

  /** Taking one element off what is left to do adds it to what is done. */
  lemma Advance<T>(keys: set<T>, todo: set<T>, s: T)
    requires s in todo && todo <= keys
    ensures s in keys && s !in keys - todo && keys - (todo - {s}) == keys - todo + {s} && todo - {s} <= keys
  {}

  lemma {:induction false} SubsetSize<T>(a: set<T>, b: set<T>)
    requires a <= b
    ensures |a| <= |b|
    decreases |a|
  {
    if a != {} {
      var x :| x in a;
      SubsetSize(a - {x}, b - {x});
    }
  }
}
