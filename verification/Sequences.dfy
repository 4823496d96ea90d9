/** Lists of lists, put together. */
module Sequences {
  function Concat<T>(parts: seq<seq<T>>): seq<T> {
    if parts == [] then [] else Concat(parts[..|parts| - 1]) + parts[|parts| - 1]
  }

  lemma ConcatAppend<T>(front: seq<seq<T>>, last: seq<T>)
    ensures Concat(front + [last]) == Concat(front) + last
  {
    assert (front + [last])[..|front|] == front;
  }

  lemma ConcatNone<T>()
    ensures Concat<T>([]) == []
  {
  }

  lemma {:induction false} ConcatFirst<T>(parts: seq<seq<T>>)
    requires parts != []
    ensures Concat(parts) == parts[0] + Concat(parts[1..])
  {
    var k := |parts| - 1;
    hide Concat;
    ConcatNone<T>();
    assert parts == parts[..k] + [parts[k]];
    ConcatAppend(parts[..k], parts[k]);
    if k == 0 {
      assert parts[1..] == [] && parts[..0] == [];
    } else {
      ConcatFirst(parts[..k]);
      assert parts[1..] == parts[..k][1..] + [parts[k]];
      ConcatAppend(parts[..k][1..], parts[k]);
    }
  }
}
