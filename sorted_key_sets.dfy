/** The iteration order of a `TreeMap<Integer, _>`: ascending keys. */
module SortedKeySets {
  /** `k` is the least element of `s`. */
  predicate IsMin(s: set<int>, k: int)
  {
    k in s && forall j :: j in s ==> k <= j
  }

  lemma {:induction false} MinimumExists(s: set<int>)
    requires s != {}
    ensures exists k :: IsMin(s, k)
    decreases |s|
  {
    assert exists y :: y in s by {
      if forall y :: y !in s { assert false; }
    }
    var x :| x in s;
    var t := s - {x};
    if t == {} {
      forall j | j in s ensures x <= j { assert j !in t; }
      assert IsMin(s, x);
    } else {
      MinimumExists(t);
      var k :| IsMin(t, k);
      var m := if x < k then x else k;
      forall j | j in s ensures m <= j {
        if j != x { assert j in t; }
      }
      assert IsMin(s, m);
    }
  }

  /** The keys of a set in the order a `TreeMap` iterates them. */
  function SortedKeys(s: set<int>): (ks: seq<int>)
    ensures |ks| == |s|
    ensures forall i :: 0 <= i < |ks| ==> ks[i] in s
    ensures forall k :: k in s ==> k in ks
    ensures forall i, j :: 0 <= i < j < |ks| ==> ks[i] < ks[j]
    decreases |s|
  {
    if s == {} then []
    else
      MinimumExists(s);
      var k :| IsMin(s, k);
      [k] + SortedKeys(s - {k})
  }
}
