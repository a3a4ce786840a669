/** Sequence helpers standing in for the array methods the source uses
    (`find`, `filter`, `reduce`) and for table lookups by a unique key. */
module Seqs {
  import opened Wrappers

  /** The position of the first element satisfying `p` (`Array.prototype.findIndex`). */
  function IndexOf<T>(s: seq<T>, p: T -> bool): (r: Option<nat>)
    ensures r.Some? ==> r.value < |s| && p(s[r.value]) && forall j :: 0 <= j < r.value ==> !p(s[j])
    ensures r.None? ==> forall j :: 0 <= j < |s| ==> !p(s[j])
  {
    if |s| == 0 then None
    else if p(s[0]) then Some(0)
    else match IndexOf(s[1..], p)
      case None => None
      case Some(k) => Some(k + 1)
  }

  /** `a` is `b` with some elements dropped and the rest kept in their order. */
  predicate Subsequence<T(==)>(a: seq<T>, b: seq<T>)
    decreases |b|
  {
    if |b| == 0 then |a| == 0
    else (|a| > 0 && a[0] == b[0] && Subsequence(a[1..], b[1..])) || Subsequence(a, b[1..])
  }

  /** How many elements of `s`, counted with repetition, satisfy `p`. */
  function CountWhere<T>(s: seq<T>, p: T -> bool): nat {
    if |s| == 0 then 0 else (if p(s[0]) then 1 else 0) + CountWhere(s[1..], p)
  }

  /** `Array.prototype.filter`. The result is a subsequence of `s` made of elements that
      satisfy `p`, and it is as long as the number of such elements: so every one of them is
      kept, as often as it occurs. */
  function Filter<T(==)>(s: seq<T>, p: T -> bool): (r: seq<T>)
    ensures |r| <= |s|
    ensures |r| == CountWhere(s, p)
    ensures forall i :: 0 <= i < |s| && p(s[i]) ==> s[i] in r
    ensures forall x :: x in r ==> x in s
    ensures forall i :: 0 <= i < |r| ==> p(r[i])
    ensures Subsequence(r, s)
  {
    if |s| == 0 then []
    else if p(s[0]) then
      var t := Filter(s[1..], p);
      assert ([s[0]] + t)[1..] == t;
      [s[0]] + t
    else
      Filter(s[1..], p)
  }

  /** `s.reduce((acc, x) => acc + f(x), 0)`. */
  function Sum<T>(s: seq<T>, f: T -> int): int
  {
    if |s| == 0 then 0 else f(s[0]) + Sum(s[1..], f)
  }

  lemma {:induction false} SumAppend<T>(a: seq<T>, b: seq<T>, f: T -> int)
    ensures Sum(a + b, f) == Sum(a, f) + Sum(b, f)
  {
    if |a| == 0 {
      assert a + b == b;
    } else {
      assert (a + b)[1..] == a[1..] + b;
      SumAppend(a[1..], b, f);
    }
  }

  /** The sequence without its element at index `k`. */
  function RemoveAt<T>(s: seq<T>, k: nat): (r: seq<T>)
    requires k < |s|
    ensures |r| == |s| - 1
    ensures forall i :: 0 <= i < k ==> r[i] == s[i]
    ensures forall i :: k <= i < |r| ==> r[i] == s[i + 1]
  {
    s[..k] + s[k + 1..]
  }

  lemma {:induction false} FilterAppend<T>(a: seq<T>, b: seq<T>, p: T -> bool)
    ensures Filter(a + b, p) == Filter(a, p) + Filter(b, p)
  {
    if |a| == 0 {
      assert a + b == b;
    } else {
      assert (a + b)[1..] == a[1..] + b;
      FilterAppend(a[1..], b, p);
    }
  }

  /** Dropping or replacing an element the predicate rejects, by one it also rejects,
      leaves the filtered sequence as it was. */
  lemma {:induction false} FilterRemoveRejected<T>(s: seq<T>, k: nat, p: T -> bool)
    requires k < |s| && !p(s[k])
    ensures Filter(RemoveAt(s, k), p) == Filter(s, p)
    decreases k
  {
    if k == 0 {
      assert RemoveAt(s, 0) == s[1..];
    } else {
      var r := RemoveAt(s, k);
      assert r[0] == s[0] && r[1..] == RemoveAt(s[1..], k - 1);
      FilterRemoveRejected(s[1..], k - 1, p);
    }
  }

  lemma FilterUpdateRejected<T>(s: seq<T>, k: nat, x: T, p: T -> bool)
    requires k < |s| && !p(s[k]) && !p(x)
    ensures Filter(s[k := x], p) == Filter(s, p)
  {
    var a, b := s[..k], s[k + 1..];
    assert s == (a + [s[k]]) + b;
    assert s[k := x] == (a + [x]) + b;
    assert [s[k]][1..] == [] && [x][1..] == [];
    assert Filter([s[k]], p) == [] && Filter([x], p) == [];
    FilterAppend(a + [s[k]], b, p);
    FilterAppend(a, [s[k]], p);
    FilterAppend(a + [x], b, p);
    FilterAppend(a, [x], p);
  }

  lemma {:induction false} FilterIdempotent<T>(s: seq<T>, p: T -> bool)
    ensures Filter(Filter(s, p), p) == Filter(s, p)
  {
    if |s| > 0 {
      FilterIdempotent(s[1..], p);
      if p(s[0]) {
        assert ([s[0]] + Filter(s[1..], p))[1..] == Filter(s[1..], p);
      }
    }
  }

  lemma {:induction false} FilterNone<T>(s: seq<T>, p: T -> bool)
    requires forall i :: 0 <= i < |s| ==> !p(s[i])
    ensures Filter(s, p) == []
  {
    if |s| > 0 {
      FilterNone(s[1..], p);
    }
  }

  lemma {:induction false} SubsequenceMembers<T>(a: seq<T>, b: seq<T>)
    requires Subsequence(a, b)
    ensures forall x :: x in a ==> x in b
    decreases |b|
  {
    if |b| > 0 {
      if |a| > 0 && a[0] == b[0] && Subsequence(a[1..], b[1..]) {
        SubsequenceMembers(a[1..], b[1..]);
        forall x | x in a ensures x in b {
          if x != a[0] {
            var i :| 0 <= i < |a| && a[i] == x;
            assert a[1..][i - 1] == x;
            assert x in b[1..];
            var m :| 0 <= m < |b[1..]| && b[1..][m] == x;
            assert b[m + 1] == x;
          }
        }
      } else {
        SubsequenceMembers(a, b[1..]);
      }
    }
  }
}
