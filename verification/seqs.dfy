/** Searching and counting over sequences. */
module Seqs {
  import opened Wrappers

  /** The index of the first element satisfying `p`, if any. */
  function {:induction false} FirstWhere<T>(s: seq<T>, p: T -> bool): (r: Option<nat>)
    ensures r.None? <==> forall i :: 0 <= i < |s| ==> !p(s[i])
    ensures r.Some? ==> r.value < |s| && p(s[r.value])
    ensures r.Some? ==> forall j :: 0 <= j < r.value ==> !p(s[j])
    decreases |s|
  {
    if |s| == 0 then None
    else if p(s[0]) then Some(0)
    else
      var rest := FirstWhere(s[1..], p);
      assert forall i :: 1 <= i < |s| ==> s[i] == s[1..][i - 1];
      match rest
      case None => None
      case Some(k) => Some(k + 1)
  }

  /** The number of elements satisfying `p`. */
  function CountWhere<T>(s: seq<T>, p: T -> bool): nat {
    if |s| == 0 then 0 else (if p(s[0]) then 1 else 0) + CountWhere(s[1..], p)
  }

  /** Two sequences that agree position by position on their predicates have
      the same count. */
  lemma {:induction false} CountWhereAgree<A, B>(a: seq<A>, p: A -> bool, b: seq<B>, q: B -> bool)
    requires |a| == |b|
    requires forall i :: 0 <= i < |a| ==> (p(a[i]) <==> q(b[i]))
    ensures CountWhere(a, p) == CountWhere(b, q)
    decreases |a|
  {
    if |a| > 0 {
      assert forall i :: 1 <= i < |a| ==> a[1..][i - 1] == a[i] && b[1..][i - 1] == b[i];
      CountWhereAgree(a[1..], p, b[1..], q);
    }
  }

  /** A count never exceeds the length, and equals it exactly when every
      element qualifies. */
  lemma {:induction false} CountWhereBound<T>(s: seq<T>, p: T -> bool)
    ensures CountWhere(s, p) <= |s|
    ensures CountWhere(s, p) == |s| <==> forall i :: 0 <= i < |s| ==> p(s[i])
    decreases |s|
  {
    if |s| > 0 {
      CountWhereBound(s[1..], p);
      assert forall i :: 1 <= i < |s| ==> s[1..][i - 1] == s[i];
    }
  }
}
