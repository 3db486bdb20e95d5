/** Python's sequence slicing and searching, on Dafny sequences. */
module PySeq {

  function Min(a: int, b: int): int { if a <= b then a else b }
  function Max(a: int, b: int): int { if a >= b then a else b }

  /**
   * The slice `s[:k]`. A negative `k` counts from the end (`s[:-1]` drops the
   * last element) and bounds past either end are clamped, as in Python.
   */
  function PyTake<T>(s: seq<T>, k: int): (r: seq<T>)
    ensures |r| <= |s| && r == s[..|r|]
    ensures 0 <= k ==> |r| == Min(k, |s|)
    ensures k < 0 ==> |r| == Max(0, |s| + k)
  {
    if 0 <= k then (if k <= |s| then s[..k] else s)
    else if |s| + k <= 0 then []
    else s[..|s| + k]
  }

  /** The slice `s[-k:]` for `k > 0`: the last `k` elements, or all of them. */
  function PyLast<T>(s: seq<T>, k: nat): (r: seq<T>)
    requires 0 < k
    ensures |r| == Min(k, |s|)
    ensures r == s[|s| - |r|..]
  {
    if |s| <= k then s else s[|s| - k..]
  }

  /** Position of the first `x` in `s`, or `|s|` when there is none. */
  function FirstIndex<T(==)>(s: seq<T>, x: T): (i: nat)
    ensures i <= |s|
    ensures i < |s| ==> s[i] == x
    ensures forall j :: 0 <= j < i ==> s[j] != x
    ensures i == |s| <==> x !in s
  {
    if s == [] then 0
    else if s[0] == x then 0
    else 1 + FirstIndex(s[1..], x)
  }

  /** Position of the last `x` in `s`; `s` must contain `x`. */
  function LastIndex<T(==)>(s: seq<T>, x: T): (i: nat)
    requires x in s
    ensures i < |s| && s[i] == x
    ensures forall j :: i < j < |s| ==> s[j] != x
  {
    if s[|s| - 1] == x then |s| - 1
    else LastIndex(s[..|s| - 1], x)
  }

  /**
   * The positions `i` of `s` at which `keep(s[i])` holds, in increasing
   * order: what a list comprehension with an `if` walks over.
   */
  function Positions<T>(s: seq<T>, keep: T -> bool): (idx: seq<nat>)
    ensures forall k :: 0 <= k < |idx| ==> idx[k] < |s| && keep(s[idx[k]])
    ensures forall k, l :: 0 <= k < l < |idx| ==> idx[k] < idx[l]
    ensures forall i :: 0 <= i < |s| && keep(s[i]) ==> i in idx
  {
    if s == [] then []
    else
      var init := s[..|s| - 1];
      var rest := Positions(init, keep);
      assert forall i :: 0 <= i < |init| ==> init[i] == s[i];
      rest + (if keep(s[|s| - 1]) then [|s| - 1] else [])
  }

  /** `[f(x) for x in s if keep(x)]`. */
  function FilterMap<T, U>(s: seq<T>, keep: T -> bool, f: T -> U): (r: seq<U>)
    ensures |r| <= |s|
  {
    if s == [] then []
    else (if keep(s[0]) then [f(s[0])] else []) + FilterMap(s[1..], keep, f)
  }

  /** Filtering two runs one after the other filters their concatenation. */
  lemma {:induction false} FilterMapAppend<T, U>(a: seq<T>, b: seq<T>, keep: T -> bool, f: T -> U)
    ensures FilterMap(a + b, keep, f) == FilterMap(a, keep, f) + FilterMap(b, keep, f)
  {
    if a == [] {
      assert a + b == b;
    } else {
      var head := if keep(a[0]) then [f(a[0])] else [];
      assert (a + b)[0] == a[0];
      assert (a + b)[1..] == a[1..] + b;
      assert FilterMap(a + b, keep, f) == head + FilterMap(a[1..] + b, keep, f);
      FilterMapAppend(a[1..], b, keep, f);
      assert FilterMap(a, keep, f) == head + FilterMap(a[1..], keep, f);
    }
  }

  /**
   * The comprehension keeps exactly the elements that pass, in order: its
   * k-th result is `f` of the k-th element that passes.
   */
  lemma {:induction false} FilterMapPositions<T, U>(s: seq<T>, keep: T -> bool, f: T -> U)
    ensures |FilterMap(s, keep, f)| == |Positions(s, keep)|
    ensures forall k :: 0 <= k < |FilterMap(s, keep, f)| ==> FilterMap(s, keep, f)[k] == f(s[Positions(s, keep)[k]])
  {
    if s != [] {
      var init := s[..|s| - 1];
      var last := s[|s| - 1];
      assert s == init + [last];
      FilterMapAppend(init, [last], keep, f);
      assert [last][1..] == [];
      FilterMapPositions(init, keep, f);
      var r := FilterMap(s, keep, f);
      var idx := Positions(s, keep);
      var before := Positions(init, keep);
      assert idx == before + (if keep(last) then [|init|] else []);
      forall k | 0 <= k < |FilterMap(init, keep, f)|
        ensures r[k] == f(s[idx[k]])
      {
        assert r[k] == FilterMap(init, keep, f)[k] && idx[k] == before[k];
        assert s[before[k]] == init[before[k]];
      }
    }
  }

  /** No element occurs twice. */
  predicate Distinct<T(==)>(s: seq<T>) {
    forall i, j :: 0 <= i < j < |s| ==> s[i] != s[j]
  }

  predicate IsPrefix<T(==)>(a: seq<T>, b: seq<T>) {
    |a| <= |b| && b[..|a|] == a
  }
}
