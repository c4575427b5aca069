/** Small shared vocabulary: an optional value and order-preserving filtering of sequences. */
module Common {

  /** A value that may be absent: a missing JSON field, a failed lookup, a regex that did not match. */
  datatype Option<+T> = None | Some(value: T) {
    /** The value, or `default` when absent. */
    function GetOr(default: T): T {
      match this
      case Some(v) => v
      case None => default
    }
  }

  /** The elements of `s` satisfying `p`, in their original order (a SQL WHERE clause, a list filter). */
  function Filter<T>(s: seq<T>, p: T -> bool): (r: seq<T>)
    ensures |r| <= |s|
    ensures forall i :: 0 <= i < |r| ==> p(r[i])
    ensures forall i :: 0 <= i < |r| ==> r[i] in s
    ensures forall i :: 0 <= i < |s| && p(s[i]) ==> s[i] in r
  {
    if |s| == 0 then []
    else (if p(s[0]) then [s[0]] else []) + Filter(s[1..], p)
  }

  /** Filtering distributes over concatenation: order is preserved. */
  lemma {:induction false} FilterAppend<T>(a: seq<T>, b: seq<T>, p: T -> bool)
    ensures Filter(a + b, p) == Filter(a, p) + Filter(b, p)
  {
    if |a| == 0 {
      assert a + b == b;
    } else {
      assert (a + b)[1..] == a[1..] + b;
      FilterAppend(a[1..], b, p);
    }
  }

  /** Filtering keeps a sequence unchanged exactly when every element passes. */
  lemma {:induction false} FilterKeepsAll<T>(s: seq<T>, p: T -> bool)
    requires forall i :: 0 <= i < |s| ==> p(s[i])
    ensures Filter(s, p) == s
  {
    if |s| > 0 {
      FilterKeepsAll(s[1..], p);
    }
  }

  /** Filtering drops a sequence whose elements all fail. */
  lemma {:induction false} FilterDropsAll<T>(s: seq<T>, p: T -> bool)
    requires forall i :: 0 <= i < |s| ==> !p(s[i])
    ensures Filter(s, p) == []
  {
    if |s| > 0 {
      FilterDropsAll(s[1..], p);
    }
  }
}
