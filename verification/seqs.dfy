/**
 * The array operations the player leans on — `findIndex`, `find` and
 * `filter` — over Dafny sequences, each with the meaning the JavaScript
 * standard library gives it.
 */
module Seqs {
  import opened Options

  /** `k` is the first position of `s` whose element satisfies `p`. */
  ghost predicate IsFirstMatch<T>(s: seq<T>, p: T -> bool, k: int) {
    0 <= k < |s| && p(s[k]) && forall j :: 0 <= j < k ==> !p(s[j])
  }

  /** `Array.prototype.findIndex`: the first position satisfying `p`, or -1. */
  function FindIndex<T>(s: seq<T>, p: T -> bool): (i: int)
    ensures -1 <= i < |s|
    ensures i == -1 <==> forall j :: 0 <= j < |s| ==> !p(s[j])
    ensures i != -1 ==> IsFirstMatch(s, p, i)
  {
    if |s| == 0 then -1
    else if p(s[0]) then 0
    else
      var k := FindIndex(s[1..], p);
      if k == -1 then -1 else k + 1
  }

  /** `Array.prototype.find`: the first element satisfying `p`, or nothing. */
  function Find<T>(s: seq<T>, p: T -> bool): (r: Option<T>)
    ensures r.None? <==> forall j :: 0 <= j < |s| ==> !p(s[j])
    ensures r.Some? ==> exists k :: IsFirstMatch(s, p, k) && r.value == s[k]
  {
    var i := FindIndex(s, p);
    if i == -1 then None else Some(s[i])
  }

  /** `idx` lists, in increasing order, the positions of `b` that spell out `a`. */
  ghost predicate Embedding<T>(idx: seq<nat>, a: seq<T>, b: seq<T>) {
    && |idx| == |a|
    && (forall k :: 0 <= k < |idx| ==> idx[k] < |b| && a[k] == b[idx[k]])
    && (forall k, l :: 0 <= k < l < |idx| ==> idx[k] < idx[l])
  }

  /** `a` is obtained from `b` by deleting elements, keeping the order of the rest. */
  ghost predicate IsSubsequence<T>(a: seq<T>, b: seq<T>) {
    exists idx :: Embedding(idx, a, b)
  }

  /** `Array.prototype.filter`. */
  function Filter<T(!new)>(s: seq<T>, p: T -> bool): (r: seq<T>)
    ensures |r| <= |s|
  {
    if |s| == 0 then []
    else (if p(s[0]) then [s[0]] else []) + Filter(s[1..], p)
  }

  /** Filtering keeps exactly the elements that pass. */
  lemma {:induction false} FilterMembers<T(!new)>(s: seq<T>, p: T -> bool)
    ensures forall x :: x in Filter(s, p) <==> x in s && p(x)
  {
    if |s| != 0 {
      FilterMembers(s[1..], p);
      assert s == [s[0]] + s[1..];
    }
  }

  /** Filtering keeps every passing element as often as it occurs, and nothing else. */
  lemma {:induction false} FilterCounts<T(!new)>(s: seq<T>, p: T -> bool, x: T)
    ensures multiset(Filter(s, p))[x] == if p(x) then multiset(s)[x] else 0
  {
    if |s| != 0 {
      FilterCounts(s[1..], p, x);
      assert s == [s[0]] + s[1..];
      var head := if p(s[0]) then [s[0]] else [];
      assert multiset(Filter(s, p)) == multiset(head) + multiset(Filter(s[1..], p));
    }
  }

  /** Positions moved one place right, past a new first element. */
  function Shift(idx: seq<nat>): (r: seq<nat>)
  {
    seq(|idx|, k requires 0 <= k < |idx| => idx[k] + 1)
  }

  lemma EmbeddingSkip<T>(idx: seq<nat>, a: seq<T>, b: seq<T>, x: T)
    requires Embedding(idx, a, b)
    ensures Embedding(Shift(idx), a, [x] + b)
  {
  }

  lemma EmbeddingKeep<T>(idx: seq<nat>, a: seq<T>, b: seq<T>, x: T)
    requires Embedding(idx, a, b)
    ensures Embedding([0] + Shift(idx), [x] + a, [x] + b)
  {
    var full := [0] + Shift(idx);
    forall k | 0 <= k < |full|
      ensures full[k] < |[x] + b| && ([x] + a)[k] == ([x] + b)[full[k]]
    {
      if k > 0 {
        assert full[k] == idx[k - 1] + 1;
      }
    }
  }

  lemma {:induction false} FilterIsSubsequence<T(!new)>(s: seq<T>, p: T -> bool)
    ensures IsSubsequence(Filter(s, p), s)
  {
    if |s| == 0 {
      assert Embedding([], Filter(s, p), s);
    } else {
      FilterIsSubsequence(s[1..], p);
      var rest := Filter(s[1..], p);
      var idx :| Embedding(idx, rest, s[1..]);
      assert s == [s[0]] + s[1..];
      if p(s[0]) {
        EmbeddingKeep(idx, rest, s[1..], s[0]);
        assert Embedding([0] + Shift(idx), Filter(s, p), s);
      } else {
        EmbeddingSkip(idx, rest, s[1..], s[0]);
        assert Embedding(Shift(idx), Filter(s, p), s);
      }
    }
  }

  /** Filtering an extended sequence filters the old part and then looks at the new element. */
  lemma {:induction false} FilterAppend<T(!new)>(s: seq<T>, x: T, p: T -> bool)
    ensures Filter(s + [x], p) == Filter(s, p) + (if p(x) then [x] else [])
  {
    if |s| == 0 {
      assert s + [x] == [x];
      assert Filter([x], p) == (if p(x) then [x] else []) + Filter([], p);
    } else {
      var head := if p(s[0]) then [s[0]] else [];
      assert (s + [x])[0] == s[0];
      assert (s + [x])[1..] == s[1..] + [x];
      assert Filter(s + [x], p) == head + Filter(s[1..] + [x], p);
      FilterAppend(s[1..], x, p);
      assert Filter(s, p) == head + Filter(s[1..], p);
    }
  }

  /** When every element passes, filtering changes nothing. */
  lemma {:induction false} FilterKeepsAll<T(!new)>(s: seq<T>, p: T -> bool)
    requires forall j :: 0 <= j < |s| ==> p(s[j])
    ensures Filter(s, p) == s
  {
    if |s| != 0 {
      FilterKeepsAll(s[1..], p);
      assert s == [s[0]] + s[1..];
    }
  }

  /** Predicates that agree on every element filter alike. */
  lemma {:induction false} FilterAgrees<T(!new)>(s: seq<T>, p: T -> bool, q: T -> bool)
    requires forall j :: 0 <= j < |s| ==> p(s[j]) == q(s[j])
    ensures Filter(s, p) == Filter(s, q)
  {
    if |s| != 0 {
      FilterAgrees(s[1..], p, q);
    }
  }

  /** When no element passes, filtering leaves nothing. */
  lemma {:induction false} FilterKeepsNone<T(!new)>(s: seq<T>, p: T -> bool)
    requires forall j :: 0 <= j < |s| ==> !p(s[j])
    ensures Filter(s, p) == []
  {
    if |s| != 0 {
      FilterKeepsNone(s[1..], p);
    }
  }
}
