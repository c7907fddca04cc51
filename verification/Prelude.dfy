/** Small shared vocabulary: optional values, results, and one counting argument. */
module Prelude {
  datatype Option<+T> = None | Some(value: T)

  datatype Result<+T, +E> = Ok(value: T) | Err(error: E)

  /**
   * The pigeonhole bound every quota below rests on: a set whose members carry
   * different labels, all of them between `lo` and `hi`, has at most
   * `hi - lo + 1` members.
   */
  lemma {:induction false} DistinctLabelsBound(s: set<nat>, tag: map<nat, int>, lo: int, hi: int)
    requires s <= tag.Keys
    requires forall x :: x in s ==> lo <= tag[x] <= hi
    requires forall x, y :: x in s && y in s && x != y ==> tag[x] != tag[y]
    requires lo <= hi + 1
    ensures |s| <= hi - lo + 1
    decreases hi - lo
  {
    if s != {} {
      var x :| x in s;
      assert lo <= tag[x] <= hi;
      if top :| top in s && tag[top] == hi {
        var rest := s - {top};
        assert |rest| == |s| - 1;
        DistinctLabelsBound(rest, tag, lo, hi - 1);
      } else {
        DistinctLabelsBound(s, tag, lo, hi - 1);
      }
    }
  }

  lemma SubsetIsSmaller<T>(a: set<T>, b: set<T>)
    requires a <= b
    ensures |b - a| == |b| - |a| >= 0
  {
    assert b == a + (b - a);
  }
}
