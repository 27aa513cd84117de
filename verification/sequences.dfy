/**
  Sequences without repetitions, as the lists of the models are.
 */
module Sequences {

  ghost predicate Distinct<T(!new)>(l: seq<T>) {
    forall i, j :: 0 <= i < j < |l| ==> l[i] != l[j]
  }

  /** All but the element at position `k`. */
  function Without<T>(l: seq<T>, k: int): (l': seq<T>)
    requires 0 <= k < |l|
    ensures |l'| == |l| - 1
    ensures forall i :: 0 <= i < |l'| ==> l'[i] == if i < k then l[i] else l[i + 1]
  {
    l[..k] + l[k + 1..]
  }

  lemma WithoutMembers<T(!new)>(l: seq<T>, k: int)
    requires 0 <= k < |l| && Distinct(l)
    ensures Distinct(Without(l, k))
    ensures forall x :: x in Without(l, k) <==> x in l && x != l[k]
  {
    var l' := Without(l, k);
    forall x | x in l && x != l[k]
      ensures x in l'
    {
      var i :| 0 <= i < |l| && l[i] == x;
      assert l'[if i < k then i else i - 1] == x;
    }
    forall x | x in l'
      ensures x in l && x != l[k]
    {
      var i :| 0 <= i < |l'| && l'[i] == x;
      assert l[if i < k then i else i + 1] == x;
    }
  }
}
