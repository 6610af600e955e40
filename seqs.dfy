/** `Array.prototype.filter` and the subsequence relation it establishes. */
module Seqs {

  /** `s.filter(p)`: the elements satisfying `p`, in their original order. */
  function Keep<T(==)>(s: seq<T>, p: T -> bool): (r: seq<T>)
    ensures |r| <= |s|
    ensures forall i :: 0 <= i < |r| ==> r[i] in s && p(r[i])
    ensures forall i :: 0 <= i < |s| && p(s[i]) ==> s[i] in r
  {
    if s == [] then [] else (if p(s[0]) then [s[0]] else []) + Keep(s[1..], p)
  }

  /** `a` can be obtained from `b` by deleting elements. */
  predicate IsSubseq<T(==)>(a: seq<T>, b: seq<T>)
    decreases |b|
  {
    a == [] ||
    (b != [] && ((a[0] == b[0] && IsSubseq(a[1..], b[1..])) || IsSubseq(a, b[1..])))
  }

  /** A filter keeps the surviving elements in their original order. */
  lemma {:induction false} KeepIsSubseq<T>(s: seq<T>, p: T -> bool)
    ensures IsSubseq(Keep(s, p), s)
  {
    if s != [] {
      KeepIsSubseq(s[1..], p);
      var r := Keep(s, p);
      if p(s[0]) {
        assert r == [s[0]] + Keep(s[1..], p);
        assert r[0] == s[0] && r[1..] == Keep(s[1..], p);
      } else {
        assert r == Keep(s[1..], p);
      }
    }
  }

  /** A filter whose predicate holds everywhere returns its input. */
  lemma {:induction false} KeepAll<T>(s: seq<T>, p: T -> bool)
    requires forall x :: x in s ==> p(x)
    ensures Keep(s, p) == s
  {
    if s != [] {
      KeepAll(s[1..], p);
      assert [s[0]] + s[1..] == s;
    }
  }

  /** A filter distributes over concatenation. */
  lemma {:induction false} KeepAppend<T>(a: seq<T>, b: seq<T>, p: T -> bool)
    ensures Keep(a + b, p) == Keep(a, p) + Keep(b, p)
  {
    if a == [] {
      assert a + b == b;
    } else {
      assert (a + b)[0] == a[0] && (a + b)[1..] == a[1..] + b;
      KeepAppend(a[1..], b, p);
    }
  }

  /** Filtering a sequence extended by one element extends the result by
      that element exactly when it passes. */
  lemma KeepSnoc<T>(a: seq<T>, x: T, p: T -> bool)
    ensures Keep(a + [x], p) == Keep(a, p) + (if p(x) then [x] else [])
  {
    KeepAppend(a, [x], p);
    assert [x][1..] == [];
  }

  /** A prefix of `b` is a prefix of anything `b` is extended to. */
  lemma PrefixOfAppend<T>(a: seq<T>, b: seq<T>, c: seq<T>)
    requires a <= b
    ensures a <= b + c
  {
    assert (b + c)[..|b|] == b;
  }

  /** The first `n` parts, concatenated in order. */
  function Concat<T>(parts: seq<seq<T>>, n: nat): seq<T>
    requires n <= |parts|
  {
    if n == 0 then [] else Concat(parts, n - 1) + parts[n - 1]
  }

  /** Element `k` of the first `n` parts lies in the first `n - 1` parts
      or, past them, in part `n - 1`. */
  lemma ConcatAt<T>(parts: seq<seq<T>>, n: nat, k: nat)
    requires 0 < n <= |parts| && k < |Concat(parts, n)|
    ensures |Concat(parts, n)| == |Concat(parts, n - 1)| + |parts[n - 1]|
    ensures k < |Concat(parts, n - 1)| ==> Concat(parts, n)[k] == Concat(parts, n - 1)[k]
    ensures k >= |Concat(parts, n - 1)| ==> Concat(parts, n)[k] == parts[n - 1][k - |Concat(parts, n - 1)|]
  {
  }

  /** Concatenating more parts only extends the result. */
  lemma {:induction false} ConcatPrefix<T>(parts: seq<seq<T>>, m: nat, n: nat)
    requires m <= n <= |parts|
    ensures Concat(parts, m) <= Concat(parts, n)
  {
    if m < n {
      ConcatPrefix(parts, m, n - 1);
      PrefixOfAppend(Concat(parts, m), Concat(parts, n - 1), parts[n - 1]);
    }
  }

  /** Element `k` of the first `n` parts is element `m` of some part `i`,
      after the parts before `i`. */
  lemma {:induction false} ConcatIndex<T>(parts: seq<seq<T>>, n: nat, k: nat) returns (i: nat, m: nat)
    requires n <= |parts| && k < |Concat(parts, n)|
    ensures i < n && m < |parts[i]| && k == |Concat(parts, i)| + m
    ensures |Concat(parts, i + 1)| == |Concat(parts, i)| + |parts[i]|
    ensures Concat(parts, n)[k] == parts[i][m]
  {
    ConcatAt(parts, n, k);
    if k < |Concat(parts, n - 1)| {
      i, m := ConcatIndex(parts, n - 1, k);
    } else {
      i, m := n - 1, k - |Concat(parts, n - 1)|;
    }
  }

  /** Every element of each of the first `n` parts is in their
      concatenation. */
  lemma ConcatContains<T>(parts: seq<seq<T>>, n: nat, i: nat, m: nat)
    requires i < n <= |parts| && m < |parts[i]|
    ensures parts[i][m] in Concat(parts, n)
  {
    ConcatPrefix(parts, i + 1, n);
    assert Concat(parts, i + 1)[|Concat(parts, i)| + m] == parts[i][m];
  }
}
