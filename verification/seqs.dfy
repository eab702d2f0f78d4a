/** Facts about sequences used as Python lists of proposed values. */
module Seqs {

  /** No value occurs twice in `s`. */
  predicate NoDuplicates<T(==)>(s: seq<T>) {
    forall i, j :: 0 <= i < j < |s| ==> s[i] != s[j]
  }

  /** The set of values occurring in `s`, Python's `set(s)`. */
  function Elems<T>(s: seq<T>): set<T> {
    set x | x in s
  }

  /** Python's `s.index(v)`: the position of the first occurrence of `v`. */
  function IndexOf<T(==)>(s: seq<T>, v: T): (i: nat)
    requires v in s
    ensures i < |s| && s[i] == v
    ensures forall k :: 0 <= k < i ==> s[k] != v
  {
    if s[0] == v then 0 else 1 + IndexOf(s[1..], v)
  }

  /** Appending to a list never moves a value that is already in it. */
  lemma {:induction false} IndexOfStableUnderAppend<T>(s: seq<T>, w: T, v: T)
    requires v in s
    ensures IndexOf(s + [w], v) == IndexOf(s, v)
  {
    var t := s + [w];
    var i := IndexOf(s, v);
    var j := IndexOf(t, v);
    assert t[i] == v;
    assert s[j] == v;
  }

  /** The elements of `s` that lie in `keep`, in their order in `s`. */
  function Filter<T(!new)>(s: seq<T>, keep: set<T>): (r: seq<T>)
    ensures forall x :: x in r <==> x in s && x in keep
  {
    if |s| == 0 then []
    else if s[0] in keep then [s[0]] + Filter(s[1..], keep)
    else Filter(s[1..], keep)
  }
}
