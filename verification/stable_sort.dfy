/**
 * Python's `list.sort(key=..., reverse=True)` and `sorted(..., reverse=True)`
 * on (score, item) pairs: a stable sort into non-increasing score order.
 * Python keeps equal-key elements in their original order even with
 * `reverse=True`; here that is stated as "for every score, the elements with
 * that score appear in the same order as before".
 */
module StableSort {

  datatype Scored<T> = Scored(score: int, item: T)

  predicate NonIncreasing<T>(s: seq<Scored<T>>) {
    forall i, j :: 0 <= i < j < |s| ==> s[i].score >= s[j].score
  }

  /** The elements of `s` whose score is `v`, in their order in `s`. */
  function WithScore<T>(s: seq<Scored<T>>, v: int): seq<Scored<T>> {
    if s == [] then []
    else (if s[0].score == v then [s[0]] else []) + WithScore(s[1..], v)
  }

  function Items<T>(s: seq<Scored<T>>): (r: seq<T>)
    ensures |r| == |s|
    ensures forall i :: 0 <= i < |s| ==> r[i] == s[i].item
  {
    seq(|s|, i requires 0 <= i < |s| => s[i].item)
  }

  /**
   * Puts `x` into the sorted `r`, ahead of every element whose score is not
   * higher: `x` came before all of `r` in the input, so it stays ahead of its ties.
   */
  function Insert<T>(x: Scored<T>, r: seq<Scored<T>>): (q: seq<Scored<T>>)
    ensures |q| == |r| + 1
    ensures multiset(q) == multiset(r) + multiset{x}
  {
    if r == [] || x.score >= r[0].score then [x] + r
    else
      assert r == [r[0]] + r[1..];
      [r[0]] + Insert(x, r[1..])
  }

  /** Putting an element no lower than the head in front of a sorted sequence keeps it sorted. */
  lemma ConsKeepsOrder<T>(a: Scored<T>, t: seq<Scored<T>>)
    requires NonIncreasing(t)
    requires t != [] ==> a.score >= t[0].score
    ensures NonIncreasing([a] + t)
  {
    var q := [a] + t;
    forall i, j | 0 <= i < j < |q| ensures q[i].score >= q[j].score {
      assert q[j] == t[j - 1];
      if i > 0 {
        assert q[i] == t[i - 1];
      }
    }
  }

  lemma {:induction false} InsertKeepsOrder<T>(x: Scored<T>, r: seq<Scored<T>>)
    requires NonIncreasing(r)
    ensures NonIncreasing(Insert(x, r))
  {
    if r == [] || x.score >= r[0].score {
      ConsKeepsOrder(x, r);
    } else {
      var t := r[1..];
      assert NonIncreasing(t) by {
        forall i, j | 0 <= i < j < |t| ensures t[i].score >= t[j].score {
          assert t[i] == r[i + 1] && t[j] == r[j + 1];
        }
      }
      InsertKeepsOrder(x, t);
      var rest := Insert(x, t);
      assert rest[0] == x || rest[0] == t[0];
      ConsKeepsOrder(r[0], rest);
    }
  }

  /** The elements with score `v` of `[a] + t`: `a` if it has that score, then those of `t`. */
  lemma WithScoreCons<T>(a: Scored<T>, t: seq<Scored<T>>, v: int)
    ensures WithScore([a] + t, v) == (if a.score == v then [a] else []) + WithScore(t, v)
  {
    assert ([a] + t)[1..] == t;
  }

  lemma {:induction false} InsertWithScore<T>(x: Scored<T>, r: seq<Scored<T>>, v: int)
    ensures WithScore(Insert(x, r), v) == (if x.score == v then [x] else []) + WithScore(r, v)
  {
    if r == [] || x.score >= r[0].score {
      WithScoreCons(x, r, v);
    } else {
      var t := r[1..];
      assert r == [r[0]] + t;
      WithScoreCons(r[0], t, v);
      WithScoreCons(r[0], Insert(x, t), v);
      InsertWithScore(x, t, v);
    }
  }

  /** Insertion sort into non-increasing score order; stable. */
  function SortDesc<T>(s: seq<Scored<T>>): (r: seq<Scored<T>>)
    ensures |r| == |s|
    ensures multiset(r) == multiset(s)
    ensures NonIncreasing(r)
    ensures forall v :: WithScore(r, v) == WithScore(s, v)
  {
    if s == [] then []
    else
      var rest := SortDesc(s[1..]);
      assert s == [s[0]] + s[1..];
      InsertKeepsOrder(s[0], rest);
      assert forall v :: WithScore(Insert(s[0], rest), v) == WithScore(s, v) by {
        forall v ensures WithScore(Insert(s[0], rest), v) == WithScore(s, v) {
          InsertWithScore(s[0], rest, v);
        }
      }
      Insert(s[0], rest)
  }

  /**
   * Taking the first `k` of a sorted sequence takes the best: nothing left
   * out scores more than anything taken.
   */
  lemma PrefixDominates<T>(s: seq<Scored<T>>, k: nat)
    requires k <= |s|
    ensures forall x, y :: x in multiset(s) - multiset(SortDesc(s)[..k]) && y in SortDesc(s)[..k] ==>
      y.score >= x.score
  {
    var r := SortDesc(s);
    forall x, y | x in multiset(s) - multiset(r[..k]) && y in r[..k]
      ensures y.score >= x.score
    {
      LeftOverIsInSuffix(r, k, x);
      SortedPrefixDominates(r, k, x, y);
    }
  }

  /** What a prefix leaves over of a sequence's elements lies in the rest of it. */
  lemma LeftOverIsInSuffix<T>(r: seq<T>, k: nat, x: T)
    requires k <= |r|
    requires x in multiset(r) - multiset(r[..k])
    ensures x in r[k..]
  {
    assert r == r[..k] + r[k..];
    assert multiset(r) == multiset(r[..k]) + multiset(r[k..]);
    assert x in multiset(r[k..]);
  }

  /** In a sorted sequence everything before position `k` scores at least as much as everything after. */
  lemma SortedPrefixDominates<T>(r: seq<Scored<T>>, k: nat, x: Scored<T>, y: Scored<T>)
    requires NonIncreasing(r) && k <= |r|
    requires x in r[k..] && y in r[..k]
    ensures y.score >= x.score
  {
    var j :| 0 <= j < |r[k..]| && r[k..][j] == x;
    var i :| 0 <= i < k && r[..k][i] == y;
    assert r[i] == y && r[k + j] == x;
  }

  /** Splitting a sequence splits, for every score, the elements with that score. */
  lemma {:induction false} WithScoreSplit<T>(s: seq<Scored<T>>, k: nat, v: int)
    requires k <= |s|
    ensures WithScore(s, v) == WithScore(s[..k], v) + WithScore(s[k..], v)
  {
    if k > 0 {
      assert s[..k][1..] == s[1..][..k - 1];
      assert s[k..] == s[1..][k - 1..];
      WithScoreSplit(s[1..], k - 1, v);
    } else {
      assert s[k..] == s;
    }
  }
}
