/** Optional values, sequences without repetition, and indices used as pointers. */
module Sequences {
  datatype Option<T> = None | Some(value: T)

  function Min(a: int, b: int): int {
    if a < b then a else b
  }

  ghost predicate Distinct<T>(s: seq<T>) {
    forall i, j | 0 <= i < j < |s| :: s[i] != s[j]
  }

  function RemoveAt<T>(s: seq<T>, k: nat): seq<T>
    requires k < |s|
  {
    s[..k] + s[k + 1..]
  }

  lemma DistinctRemove<T(!new)>(s: seq<T>, k: nat)
    requires k < |s| && Distinct(s)
    ensures Distinct(RemoveAt(s, k))
    ensures forall x :: x in RemoveAt(s, k) <==> x in s && x != s[k]
  {
    var r := RemoveAt(s, k);
    assert forall i | 0 <= i < |r| :: r[i] == if i < k then s[i] else s[i + 1];
    forall x
      ensures x in r <==> x in s && x != s[k]
    {
      if x in s && x != s[k] {
        var i :| 0 <= i < |s| && s[i] == x;
        assert if i < k then r[i] == x else r[i - 1] == x;
      }
    }
  }

  /** The null pointer, where pointers are indices or addresses. */
  const NIL: int := -1

  function CellAt(s: seq<int>, k: int): int {
    if 0 <= k < |s| then s[k] else NIL
  }
}
