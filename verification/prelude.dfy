/** Shared vocabulary: optional values and the order-preserving filter behind `Vec::retain`. */
module Prelude {

  datatype Option<+T> = None | Some(value: T)

  /** The elements of `s` that satisfy `keep`, in their original order. */
  function Filter<T>(s: seq<T>, keep: T -> bool): (r: seq<T>)
    ensures |r| <= |s|
  {
    if s == [] then []
    else
      var rest := Filter(s[..|s| - 1], keep);
      if keep(s[|s| - 1]) then rest + [s[|s| - 1]] else rest
  }

  lemma {:induction false} FilterMembers<T>(s: seq<T>, keep: T -> bool)
    ensures forall x | x in Filter(s, keep) :: x in s && keep(x)
    ensures forall x | x in s && keep(x) :: x in Filter(s, keep)
  {
    if s != [] {
      var front, last := s[..|s| - 1], s[|s| - 1];
      FilterMembers(front, keep);
      assert s == front + [last];
    }
  }

  ghost predicate Ascending<T>(s: seq<T>, key: T -> int) {
    forall i, j | 0 <= i < j < |s| :: key(s[i]) < key(s[j])
  }

  lemma {:induction false} FilterAscending<T>(s: seq<T>, keep: T -> bool, key: T -> int)
    requires Ascending(s, key)
    ensures Ascending(Filter(s, keep), key)
  {
    if s != [] {
      var front, last := s[..|s| - 1], s[|s| - 1];
      FilterAscending(front, keep, key);
      FilterMembers(front, keep);
      var rest := Filter(front, keep);
      forall i | 0 <= i < |rest| ensures key(rest[i]) < key(last) {
        assert rest[i] in rest;
        var k :| 0 <= k < |front| && front[k] == rest[i];
        assert s[k] == front[k] && s[|s| - 1] == last;
      }
    }
  }

  lemma {:induction false} FilterConcat<T>(a: seq<T>, b: seq<T>, keep: T -> bool)
    ensures Filter(a + b, keep) == Filter(a, keep) + Filter(b, keep)
  {
    if b == [] {
      assert a + b == a;
    } else {
      var front, last := b[..|b| - 1], b[|b| - 1];
      FilterConcat(a, front, keep);
      assert (a + b)[..|a + b| - 1] == a + front;
    }
  }
}
