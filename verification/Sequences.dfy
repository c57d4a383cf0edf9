/** What the standard facts about sequences are needed for here. */
module Sequences {

  lemma Assoc<T>(x: seq<T>, y: seq<T>, z: seq<T>)
    ensures x + y + z == x + (y + z)
  {
  }

  function Elements<T(==)>(s: seq<T>): set<T> {
    set x | x in s
  }

  function Flatten<T>(lists: seq<seq<T>>): seq<T> {
    if lists == [] then [] else Flatten(lists[..|lists| - 1]) + lists[|lists| - 1]
  }

  lemma FlattenSnoc<T>(lists: seq<seq<T>>, last: seq<T>)
    ensures Flatten(lists + [last]) == Flatten(lists) + last
  {
    assert (lists + [last])[..|lists|] == lists;
  }

  lemma {:induction false} InFlatten<T>(lists: seq<seq<T>>, x: T)
    ensures x in Flatten(lists) <==> exists i | 0 <= i < |lists| :: x in lists[i]
  {
    if lists != [] {
      var n := |lists| - 1;
      InFlatten(lists[..n], x);
      if i :| 0 <= i < |lists[..n]| && x in lists[..n][i] {
        assert x in lists[i];
      }
      if i :| 0 <= i < |lists| && x in lists[i] && i < n {
        assert lists[..n][i] == lists[i];
      }
    }
  }
}
