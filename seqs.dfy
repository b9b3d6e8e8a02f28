/** Mapping a function over a list. */
module Seqs {

  /** `f` applied to every element of `s`, in order. */
  function MapSeq<A, B>(s: seq<A>, f: A -> B): (r: seq<B>)
    ensures |r| == |s| && forall i :: 0 <= i < |s| ==> r[i] == f(s[i])
    ensures forall a :: a in s ==> f(a) in r
    ensures forall y :: y in r ==> exists a :: a in s && y == f(a)
  {
    var r := seq(|s|, i requires 0 <= i < |s| => f(s[i]));
    assert forall a :: a in s ==> f(a) in r by {
      forall a | a in s ensures f(a) in r {
        var i :| 0 <= i < |s| && s[i] == a;
        assert r[i] == f(a);
      }
    }
    assert forall y :: y in r ==> exists a :: a in s && y == f(a) by {
      forall y | y in r ensures exists a :: a in s && y == f(a) {
        var i :| 0 <= i < |r| && r[i] == y;
        assert s[i] in s;
      }
    }
    r
  }

  /** Mapping a permutation of `b` gives the images of the elements of `b` and nothing else. */
  lemma MapPermuted<A, B>(a: seq<A>, b: seq<A>, f: A -> B, r: seq<B>)
    requires multiset(a) == multiset(b)
    requires |r| == |a| && forall i :: 0 <= i < |a| ==> r[i] == f(a[i])
    ensures forall k :: 0 <= k < |b| ==> f(b[k]) in r
    ensures forall x :: x in r ==> exists k :: 0 <= k < |b| && x == f(b[k])
  {
    forall k | 0 <= k < |b| ensures f(b[k]) in r {
      assert b[k] in multiset(a);
      var i :| 0 <= i < |a| && a[i] == b[k];
      assert r[i] == f(b[k]);
    }
    forall x | x in r ensures exists k :: 0 <= k < |b| && x == f(b[k]) {
      var i :| 0 <= i < |r| && r[i] == x;
      assert a[i] in multiset(b);
      var k :| 0 <= k < |b| && b[k] == a[i];
    }
  }
}
