/** Facts about Python dictionaries filled from a sequence of keys: a dictionary
    iterates its keys in the order they were first inserted, so the keys of a
    dictionary filled from `ks` are `Distinct(ks)`; a counter dictionary holds
    `Count(ks, k)` for each of them. */
module Groups {

  /** The keys of `ks` in order of first occurrence, each once. */
  function Distinct<K(==)>(ks: seq<K>): (r: seq<K>)
    ensures forall i :: 0 <= i < |r| ==> r[i] in ks
    ensures forall i, j :: 0 <= i < j < |r| ==> r[i] != r[j]
    ensures |r| <= |ks|
  {
    if |ks| == 0 then []
    else
      var d := Distinct(ks[..|ks| - 1]);
      assert forall i :: 0 <= i < |ks| - 1 ==> ks[i] == ks[..|ks| - 1][i];
      if ks[|ks| - 1] in d then d else d + [ks[|ks| - 1]]
  }

  /** Every key of `ks` is listed by `Distinct(ks)`. */
  lemma {:induction false} DistinctCovers<K>(ks: seq<K>, i: nat)
    requires i < |ks|
    ensures ks[i] in Distinct(ks)
    decreases |ks|
  {
    if i < |ks| - 1 {
      var p := ks[..|ks| - 1];
      DistinctCovers(p, i);
      assert p[i] == ks[i];
    }
  }

  /** The position of the first occurrence of `k` in `ks`. */
  function FirstIndex<K(==)>(ks: seq<K>, k: K): (i: nat)
    requires k in ks
    ensures i < |ks| && ks[i] == k
    ensures forall j :: 0 <= j < i ==> ks[j] != k
  {
    if ks[0] == k then 0 else 1 + FirstIndex(ks[1..], k)
  }

  /** Distinct lists keys in the order of their first occurrences. */
  lemma {:induction false} DistinctOrder<K>(ks: seq<K>, i: nat, j: nat)
    requires i < j < |Distinct(ks)|
    ensures FirstIndex(ks, Distinct(ks)[i]) < FirstIndex(ks, Distinct(ks)[j])
    decreases |ks|
  {
    var p := ks[..|ks| - 1];
    var d := Distinct(p);
    var a, b := Distinct(ks)[i], Distinct(ks)[j];
    assert ks == p + [ks[|ks| - 1]];
    if j < |d| {
      DistinctOrder(p, i, j);
      FirstIndexPrefix(p, ks, a);
      FirstIndexPrefix(p, ks, b);
    } else {
      // b is the last key, first seen at the end of ks
      DistinctMembers(p, b);
      assert b == ks[|ks| - 1] && b !in p;
      FirstIndexPrefix(p, ks, a);
      assert forall f :: 0 <= f < |ks| - 1 ==> ks[f] == p[f];
      assert FirstIndex(ks, b) == |ks| - 1;
    }
  }

  lemma {:induction false} FirstIndexPrefix<K>(p: seq<K>, ks: seq<K>, k: K)
    requires k in p && p <= ks
    ensures FirstIndex(ks, k) == FirstIndex(p, k)
    decreases |p|
  {
    if ks[0] != k {
      assert p[1..] <= ks[1..];
      FirstIndexPrefix(p[1..], ks[1..], k);
    }
  }

  /** A key seen for the first time is appended; a key seen before changes
      nothing. */
  lemma DistinctSnoc<K>(ks: seq<K>, x: K)
    ensures x in Distinct(ks) <==> x in ks
    ensures Distinct(ks + [x]) == if x in ks then Distinct(ks) else Distinct(ks) + [x]
  {
    assert (ks + [x])[..|ks|] == ks;
    DistinctMembers(ks, x);
  }

  lemma DistinctMembers<K>(ks: seq<K>, x: K)
    ensures x in Distinct(ks) <==> x in ks
  {
    if x in ks {
      var i :| 0 <= i < |ks| && ks[i] == x;
      DistinctCovers(ks, i);
    }
  }

  /** The number of occurrences of `k` in `ks`. */
  function Count<K(==)>(ks: seq<K>, k: K): (n: nat)
    ensures n <= |ks|
    ensures n > 0 <==> k in ks
  {
    if |ks| == 0 then 0
    else
      assert ks == ks[..|ks| - 1] + [ks[|ks| - 1]];
      Count(ks[..|ks| - 1], k) + if ks[|ks| - 1] == k then 1 else 0
  }

  lemma CountSnoc<K>(ks: seq<K>, x: K, k: K)
    ensures Count(ks + [x], k) == Count(ks, k) + if x == k then 1 else 0
  {
    assert (ks + [x])[..|ks|] == ks;
  }

  /** The sum of `Count(ks, k)` over the keys `k` of `keys`. */
  function SumCounts<K(==)>(keys: seq<K>, ks: seq<K>): nat {
    if |keys| == 0 then 0 else SumCounts(keys[..|keys| - 1], ks) + Count(ks, keys[|keys| - 1])
  }

  lemma {:induction false} SumCountsSnoc<K>(keys: seq<K>, ks: seq<K>, x: K)
    requires forall i, j :: 0 <= i < j < |keys| ==> keys[i] != keys[j]
    ensures SumCounts(keys, ks + [x]) == SumCounts(keys, ks) + if x in keys then 1 else 0
    decreases |keys|
  {
    if |keys| > 0 {
      var init := keys[..|keys| - 1];
      assert (ks + [x])[..|ks + [x]| - 1] == ks;
      SumCountsSnoc(init, ks, x);
      assert x in keys <==> x in init || x == keys[|keys| - 1] by {
        assert keys == init + [keys[|keys| - 1]];
      }
      assert x == keys[|keys| - 1] ==> x !in init;
    }
  }

  /** Counting every key of a dictionary accounts for every element once:
      the counts of a counter dictionary sum to the length of its input. */
  lemma {:induction false} CountsSumToLength<K>(ks: seq<K>)
    ensures SumCounts(Distinct(ks), ks) == |ks|
    decreases |ks|
  {
    if |ks| > 0 {
      var p, x := ks[..|ks| - 1], ks[|ks| - 1];
      var d := Distinct(p);
      assert ks == p + [x];
      CountsSumToLength(p);
      if x in d {
        SumCountsSnoc(d, p, x);
      } else {
        SumCountsSnoc(d, p, x);
        assert Distinct(ks) == d + [x];
        assert (d + [x])[..|d|] == d;
        assert SumCounts(d + [x], ks) == SumCounts(d, ks) + Count(ks, x);
        DistinctMembers(p, x);
        assert Count(p, x) == 0;
        assert Count(ks, x) == 1;
      }
    }
  }
}
