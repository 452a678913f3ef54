/** `CrossEncoderReranker.rerank`: every candidate gets the cross-encoder's score
    for the pair (query, text) as its `"rerank_score"`, then the list is sorted
    in place by that score, highest first. Python's `list.sort` is stable, also
    with `reverse=True`, so candidates with equal scores keep their order
    (`SortDescStable`); the order is computed here by an insertion sort. */
module Reranker {
  import opened Wrappers
  import opened Documents

  /** The `(query, text)` pairs handed to the cross-encoder, one per document. */
  function Pairs(query: string, docs: seq<Doc>): (pairs: seq<(string, string)>)
    ensures |pairs| == |docs|
    ensures forall i :: 0 <= i < |docs| ==> pairs[i].0 == query && pairs[i].1 == docs[i].text
  {
    seq(|docs|, i requires 0 <= i < |docs| => (query, docs[i].text))
  }

  /** The documents after `doc["rerank_score"] = float(score)` for each
      document and the score at its position. */
  function WithScores(docs: seq<Doc>, scores: seq<real>): (r: seq<Doc>)
    requires |scores| == |docs|
    ensures |r| == |docs|
    ensures forall i :: 0 <= i < |r| ==> r[i].rerankScore == Some(scores[i]) && Key(r[i]) == scores[i]
    ensures forall i :: 0 <= i < |r| ==> r[i].(rerankScore := docs[i].rerankScore) == docs[i]
  {
    seq(|docs|, i requires 0 <= i < |docs| => docs[i].(rerankScore := Some(scores[i])))
  }

  /** Non-increasing by rerank score. */
  predicate SortedDesc(s: seq<Doc>) {
    forall i, j :: 0 <= i < j < |s| ==> Key(s[i]) >= Key(s[j])
  }

  /** Inserts `x`, which comes after every element of `t` in the input, behind
      every element whose score is at least its own. */
  function InsertDesc(t: seq<Doc>, x: Doc): (r: seq<Doc>)
    ensures |r| == |t| + 1
    decreases |t|
  {
    if |t| == 0 || Key(t[|t| - 1]) >= Key(x) then t + [x]
    else InsertDesc(t[..|t| - 1], x) + [t[|t| - 1]]
  }

  lemma {:induction false} InsertDescPerm(t: seq<Doc>, x: Doc)
    ensures multiset(InsertDesc(t, x)) == multiset(t) + multiset{x}
    decreases |t|
  {
    if |t| > 0 && Key(t[|t| - 1]) < Key(x) {
      InsertDescPerm(t[..|t| - 1], x);
      assert t == t[..|t| - 1] + [t[|t| - 1]];
    }
  }

  /** The stable descending sort of `s` by rerank score. */
  function SortDesc(s: seq<Doc>): (r: seq<Doc>)
    ensures |r| == |s|
  {
    if |s| == 0 then [] else InsertDesc(SortDesc(s[..|s| - 1]), s[|s| - 1])
  }

  /** The sort's result is a permutation of its input. */
  lemma {:induction false} SortDescPerm(s: seq<Doc>)
    ensures multiset(SortDesc(s)) == multiset(s)
    decreases |s|
  {
    if |s| > 0 {
      var init, x := s[..|s| - 1], s[|s| - 1];
      SortDescPerm(init);
      InsertDescPerm(SortDesc(init), x);
      assert SortDesc(s) == InsertDesc(SortDesc(init), x);
      assert s == init + [x];
      assert multiset(s) == multiset(init) + multiset{x};
    }
  }

  lemma {:induction false} InsertDescSorted(t: seq<Doc>, x: Doc)
    requires SortedDesc(t)
    ensures SortedDesc(InsertDesc(t, x))
    decreases |t|
  {
    if |t| > 0 && Key(t[|t| - 1]) < Key(x) {
      var init, last := t[..|t| - 1], t[|t| - 1];
      InsertDescSorted(init, x);
      var u := InsertDesc(init, x);
      InsertDescPerm(init, x);
      // every element of u is an element of init or x; all score at least the last of t
      forall i | 0 <= i < |u| ensures Key(u[i]) >= Key(last) {
        assert u[i] in multiset(u);
        if u[i] != x {
          assert u[i] in multiset(init);
          var m :| 0 <= m < |init| && init[m] == u[i];
          assert Key(t[m]) >= Key(t[|t| - 1]);
        }
      }
      assert InsertDesc(t, x) == u + [last];
      SortedSnoc(u, last);
    }
  }

  /** Appending an element that scores no more than any other keeps a list
      sorted. */
  lemma SortedSnoc(u: seq<Doc>, y: Doc)
    requires SortedDesc(u)
    requires forall i :: 0 <= i < |u| ==> Key(u[i]) >= Key(y)
    ensures SortedDesc(u + [y])
  {
    var v := u + [y];
    forall i, j | 0 <= i < j < |v| ensures Key(v[i]) >= Key(v[j]) {
      assert v[i] == u[i];
    }
  }

  /** The sort's result is ordered by non-increasing rerank score. */
  lemma {:induction false} SortDescSorted(s: seq<Doc>)
    ensures SortedDesc(SortDesc(s))
    decreases |s|
  {
    if |s| > 0 {
      SortDescSorted(s[..|s| - 1]);
      InsertDescSorted(SortDesc(s[..|s| - 1]), s[|s| - 1]);
    }
  }

  /** The subsequence of the elements of `s` whose score is `k`. */
  function WithKey(s: seq<Doc>, k: real): seq<Doc> {
    if |s| == 0 then [] else WithKey(s[..|s| - 1], k) + if Key(s[|s| - 1]) == k then [s[|s| - 1]] else []
  }

  lemma {:induction false} InsertDescStable(t: seq<Doc>, x: Doc, k: real)
    ensures WithKey(InsertDesc(t, x), k) == WithKey(t, k) + if Key(x) == k then [x] else []
    decreases |t|
  {
    if |t| == 0 || Key(t[|t| - 1]) >= Key(x) {
      assert (t + [x])[..|t|] == t;
    } else {
      var init, last := t[..|t| - 1], t[|t| - 1];
      InsertDescStable(init, x, k);
      var u := InsertDesc(init, x);
      assert (u + [last])[..|u|] == u;
    }
  }

  /** Stability: the documents sharing any one score appear in the sorted
      result in exactly their input order. */
  lemma {:induction false} SortDescStable(s: seq<Doc>, k: real)
    ensures WithKey(SortDesc(s), k) == WithKey(s, k)
    decreases |s|
  {
    if |s| > 0 {
      SortDescStable(s[..|s| - 1], k);
      InsertDescStable(SortDesc(s[..|s| - 1]), s[|s| - 1], k);
    }
  }

  /** The threshold filter `[doc for doc in docs if doc["rerank_score"] >= threshold]`. */
  function AtLeast(s: seq<Doc>, threshold: real): (r: seq<Doc>)
    ensures |r| <= |s|
  {
    if |s| == 0 then [] else AtLeast(s[..|s| - 1], threshold) + if Key(s[|s| - 1]) >= threshold then [s[|s| - 1]] else []
  }

  /** The filter keeps exactly the documents scoring at least `threshold`:
      the bound is inclusive. */
  lemma {:induction false} AtLeastMembers(s: seq<Doc>, threshold: real)
    ensures forall d :: d in AtLeast(s, threshold) <==> d in s && Key(d) >= threshold
    decreases |s|
  {
    if |s| > 0 {
      AtLeastMembers(s[..|s| - 1], threshold);
      assert s == s[..|s| - 1] + [s[|s| - 1]];
    }
  }

  lemma {:induction false} AtLeastInsert(t: seq<Doc>, x: Doc, threshold: real)
    ensures AtLeast(InsertDesc(t, x), threshold)
         == if Key(x) >= threshold then InsertDesc(AtLeast(t, threshold), x) else AtLeast(t, threshold)
    decreases |t|
  {
    var f := AtLeast(t, threshold);
    if |t| == 0 {
      AtLeastSnoc(t, x, threshold);
    } else {
      var init, last := t[..|t| - 1], t[|t| - 1];
      var fi := AtLeast(init, threshold);
      AtLeastSnoc(init, last, threshold);
      assert t == init + [last];
      if Key(last) >= Key(x) {
        assert InsertDesc(t, x) == t + [x];
        AtLeastSnoc(t, x, threshold);
        if Key(x) >= threshold {
          assert f == fi + [last];
          assert InsertDesc(f, x) == f + [x];
        }
      } else {
        AtLeastInsert(init, x, threshold);
        var u := InsertDesc(init, x);
        assert InsertDesc(t, x) == u + [last];
        AtLeastSnoc(u, last, threshold);
        if Key(last) >= threshold {
          assert f == fi + [last];
          assert f[..|f| - 1] == fi;
          assert InsertDesc(f, x) == InsertDesc(fi, x) + [last];
        } else {
          assert f == fi;
        }
      }
    }
  }

  lemma AtLeastSnoc(s: seq<Doc>, y: Doc, threshold: real)
    ensures AtLeast(s + [y], threshold) == AtLeast(s, threshold) + if Key(y) >= threshold then [y] else []
  {
    assert (s + [y])[..|s|] == s;
  }

  /** Filtering the sorted list keeps the same documents as sorting the
      filtered list: the survivors of the threshold are themselves in stable
      descending order. */
  lemma {:induction false} AtLeastSortDesc(s: seq<Doc>, threshold: real)
    ensures AtLeast(SortDesc(s), threshold) == SortDesc(AtLeast(s, threshold))
    decreases |s|
  {
    if |s| > 0 {
      var init, x := s[..|s| - 1], s[|s| - 1];
      var fi := AtLeast(init, threshold);
      AtLeastSortDesc(init, threshold);
      AtLeastInsert(SortDesc(init), x, threshold);
      assert SortDesc(s) == InsertDesc(SortDesc(init), x);
      if Key(x) >= threshold {
        var g := fi + [x];
        assert AtLeast(s, threshold) == g;
        assert g[..|g| - 1] == fi;
        assert SortDesc(g) == InsertDesc(SortDesc(fi), x);
      } else {
        assert AtLeast(s, threshold) == fi;
      }
    }
  }

  lemma {:induction false} AtLeastAll(s: seq<Doc>, threshold: real)
    requires forall i :: 0 <= i < |s| ==> Key(s[i]) >= threshold
    ensures AtLeast(s, threshold) == s
    decreases |s|
  {
    if |s| > 0 {
      AtLeastAll(s[..|s| - 1], threshold);
    }
  }

  /** On a list sorted by descending score the threshold filter keeps a prefix. */
  lemma {:induction false} AtLeastPrefix(s: seq<Doc>, threshold: real)
    requires SortedDesc(s)
    ensures AtLeast(s, threshold) == s[..|AtLeast(s, threshold)|]
    decreases |s|
  {
    if |s| > 0 {
      var init := s[..|s| - 1];
      if Key(s[|s| - 1]) >= threshold {
        AtLeastAll(s, threshold);
      } else {
        AtLeastPrefix(init, threshold);
      }
    }
  }

  /** Sorts `a` in place by descending rerank score, keeping the order of
      equal scores (Python's `documents.sort(key=..., reverse=True)`). */
  method SortInPlace(a: array<Doc>)
    modifies a
    ensures a[..] == SortDesc(old(a[..]))
  {
    ghost var s := a[..];
    var i := 0;
    while i < a.Length
      invariant 0 <= i <= a.Length
      invariant a[..i] == SortDesc(s[..i])
      invariant a[i..] == s[i..]
    {
      assert a[i] == s[i];
      InsertStep(a, i);
      assert s[..i + 1][..i] == s[..i];
      i := i + 1;
    }
    assert s[..a.Length] == s;
  }

  /** One step of the insertion sort: moves `a[i]` left past every element
      of the already sorted prefix `a[..i]` that scores strictly less. */
  method InsertStep(a: array<Doc>, i: nat)
    requires i < a.Length
    modifies a
    ensures a[..i + 1] == InsertDesc(old(a[..i]), old(a[i]))
    ensures a[i + 1..] == old(a[i + 1..])
  {
    ghost var t, tail := a[..i], a[i + 1..];
    var x := a[i];
    var j := i;
    while j > 0 && Key(a[j - 1]) < Key(x)
      invariant j <= i
      invariant Shifted(a[..], t, x, j, tail)
      decreases j
    {
      ghost var cur := a[..];
      a[j] := a[j - 1];
      ShiftStep(cur, t, x, j, tail);
      j := j - 1;
    }
    a[j] := x;
    InsertedAt(t, x, j, a[..i + 1]);
    assert a[i + 1..] == tail;
  }

  /** The array `cur` during the shifting loop of `InsertStep`: the elements
      of the sorted prefix `t` before position `j` are in place, those from
      `j` on have moved one to the right and all score less than `x`, and the
      part after position `|t|` is untouched. */
  ghost predicate Shifted(cur: seq<Doc>, t: seq<Doc>, x: Doc, j: nat, tail: seq<Doc>) {
    && j <= |t| && |cur| == |t| + 1 + |tail|
    && (forall m :: 0 <= m < j ==> cur[m] == t[m])
    && (forall m :: j <= m < |t| ==> cur[m + 1] == t[m])
    && (forall m :: j <= m < |t| ==> Key(t[m]) < Key(x))
    && cur[|t| + 1..] == tail
  }

  lemma ShiftStep(cur: seq<Doc>, t: seq<Doc>, x: Doc, j: nat, tail: seq<Doc>)
    requires Shifted(cur, t, x, j, tail) && 0 < j && Key(cur[j - 1]) < Key(x)
    ensures Shifted(cur[j := cur[j - 1]], t, x, j - 1, tail)
  {
    var next := cur[j := cur[j - 1]];
    assert next[|t| + 1..] == cur[|t| + 1..];
  }

  /** A sequence holding `t[..j]`, then `x`, then `t[j..]` is the insertion
      of `x` into `t` when `x` outranks every element of `t[j..]` and not
      `t[j - 1]`. */
  lemma InsertedAt(t: seq<Doc>, x: Doc, j: nat, u: seq<Doc>)
    requires j <= |t| && |u| == |t| + 1
    requires forall m :: j <= m < |t| ==> Key(t[m]) < Key(x)
    requires j == 0 || Key(t[j - 1]) >= Key(x)
    requires forall m :: 0 <= m < j ==> u[m] == t[m]
    requires u[j] == x
    requires forall m :: j <= m < |t| ==> u[m + 1] == t[m]
    ensures u == InsertDesc(t, x)
  {
    InsertDescAt(t, x, j);
    var v := t[..j] + [x] + t[j..];
    forall m | 0 <= m < |u| ensures u[m] == v[m] {
      if m < j {
        assert v[m] == t[m];
      } else if m > j {
        assert v[m] == t[m - 1];
      }
    }
  }

  /** Inserting `x` lands it right after the last element scoring at least as
      much, when every element after that scores less. */
  lemma {:induction false} InsertDescAt(t: seq<Doc>, x: Doc, j: nat)
    requires j <= |t|
    requires forall m :: j <= m < |t| ==> Key(t[m]) < Key(x)
    requires j == 0 || Key(t[j - 1]) >= Key(x)
    ensures InsertDesc(t, x) == t[..j] + [x] + t[j..]
    decreases |t|
  {
    if j < |t| {
      var init := t[..|t| - 1];
      assert forall m :: j <= m < |init| ==> init[m] == t[m];
      InsertDescAt(init, x, j);
      assert init[..j] == t[..j];
      assert t[j..] == init[j..] + [t[|t| - 1]];
    } else if j > 0 {
      assert t[..j] == t;
    }
  }

  /** `CrossEncoderReranker.rerank(query, documents)`: `scores` is what the
      cross-encoder returns for `Pairs(query, docs[..])`, one score per pair.
      Writes each score into its document, sorts `docs` in place and returns
      that same list. */
  method Rerank(query: string, docs: array<Doc>, scores: seq<real>) returns (r: array<Doc>)
    requires |scores| == |Pairs(query, docs[..])|
    modifies docs
    ensures r == docs
    ensures docs[..] == SortDesc(WithScores(old(docs[..]), scores))
  {
    ghost var scored := WithScores(docs[..], scores);
    for i := 0 to docs.Length
      invariant docs[..i] == scored[..i]
      invariant docs[i..] == old(docs[..])[i..]
    {
      docs[i] := docs[i].(rerankScore := Some(scores[i]));
      assert docs[..i + 1] == docs[..i] + [docs[i]];
    }
    assert docs[..] == docs[..docs.Length];
    assert scored[..docs.Length] == scored;
    SortInPlace(docs);
    r := docs;
  }
}
