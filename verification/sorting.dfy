/** A stable insertion sort standing in for the database's `orderBy`, and the
    orderings the listings use. */
module Sorting {
  import Seqs

  ghost predicate Total<T(!new)>(le: (T, T) -> bool) {
    forall a, b :: le(a, b) || le(b, a)
  }

  ghost predicate Transitive<T(!new)>(le: (T, T) -> bool) {
    forall a, b, c :: le(a, b) && le(b, c) ==> le(a, c)
  }

  predicate Sorted<T>(s: seq<T>, le: (T, T) -> bool) {
    forall i, j :: 0 <= i < j < |s| ==> le(s[i], s[j])
  }

  /** Inserts `x` before the first element it is ordered before. */
  function Insert<T>(x: T, s: seq<T>, le: (T, T) -> bool): (r: seq<T>)
    ensures |r| == |s| + 1
    ensures multiset(r) == multiset(s) + multiset{x}
  {
    if |s| == 0 then [x]
    else if le(x, s[0]) then [x] + s
    else
      assert s == [s[0]] + s[1..];
      [s[0]] + Insert(x, s[1..], le)
  }

  function Sort<T>(s: seq<T>, le: (T, T) -> bool): (r: seq<T>)
    ensures |r| == |s|
    ensures multiset(r) == multiset(s)
  {
    if |s| == 0 then []
    else
      assert s == [s[0]] + s[1..];
      Insert(s[0], Sort(s[1..], le), le)
  }

  lemma {:induction false} InsertSorted<T(!new)>(x: T, s: seq<T>, le: (T, T) -> bool)
    requires Total(le) && Transitive(le) && Sorted(s, le)
    ensures Sorted(Insert(x, s, le), le)
  {
    if |s| == 0 || le(x, s[0]) {
    } else {
      var t := Insert(x, s[1..], le);
      InsertSorted(x, s[1..], le);
      assert le(s[0], x);
      forall j | 0 <= j < |t| ensures le(s[0], t[j]) {
        assert t[j] in multiset(t);
        assert t[j] == x || t[j] in multiset(s[1..]);
        if t[j] != x {
          var k :| 0 < k < |s| && s[k] == t[j];
        }
      }
    }
  }

  /** Sorting yields an ordered permutation of its input whenever the ordering is a total preorder. */
  lemma {:induction false} SortSorted<T(!new)>(s: seq<T>, le: (T, T) -> bool)
    requires Total(le) && Transitive(le)
    ensures Sorted(Sort(s, le), le)
  {
    if |s| > 0 {
      SortSorted(s[1..], le);
      InsertSorted(s[0], Sort(s[1..], le), le);
    }
  }

  /** Orders by an integer key, largest first (`orderBy: { createdAt: 'desc' }`). */
  function ByKeyDesc<T>(key: T -> int): (T, T) -> bool {
    (a: T, b: T) => key(a) >= key(b)
  }

  /** Orders by an integer key, smallest first (`orderBy: { order: 'asc' }`). */
  function ByKeyAsc<T>(key: T -> int): (T, T) -> bool {
    (a: T, b: T) => key(a) <= key(b)
  }

  lemma KeyOrdersArePreorders<T(!new)>(key: T -> int)
    ensures Total(ByKeyDesc(key)) && Transitive(ByKeyDesc(key))
    ensures Total(ByKeyAsc(key)) && Transitive(ByKeyAsc(key))
  {
  }

  /** Code-point lexicographic order on strings (`orderBy: { name: 'asc' }`). */
  predicate StrLe(a: string, b: string)
    decreases |a|
  {
    if |a| == 0 then true
    else if |b| == 0 then false
    else if a[0] != b[0] then a[0] < b[0]
    else StrLe(a[1..], b[1..])
  }

  lemma {:induction false} StrLeTotal(a: string, b: string)
    ensures StrLe(a, b) || StrLe(b, a)
    decreases |a|
  {
    if |a| > 0 && |b| > 0 && a[0] == b[0] {
      StrLeTotal(a[1..], b[1..]);
    }
  }

  lemma {:induction false} StrLeTransitive(a: string, b: string, c: string)
    requires StrLe(a, b) && StrLe(b, c)
    ensures StrLe(a, c)
    decreases |a|
  {
    if |a| > 0 && |b| > 0 && |c| > 0 && a[0] == b[0] && b[0] == c[0] {
      StrLeTransitive(a[1..], b[1..], c[1..]);
    }
  }

  function ByStringAsc<T>(key: T -> string): (T, T) -> bool {
    (a: T, b: T) => StrLe(key(a), key(b))
  }

  lemma StringOrderIsPreorder<T(!new)>(key: T -> string)
    ensures Total(ByStringAsc(key)) && Transitive(ByStringAsc(key))
  {
    forall a: T, b: T ensures ByStringAsc(key)(a, b) || ByStringAsc(key)(b, a) {
      StrLeTotal(key(a), key(b));
    }
    forall a: T, b: T, c: T | ByStringAsc(key)(a, b) && ByStringAsc(key)(b, c)
      ensures ByStringAsc(key)(a, c)
    {
      StrLeTransitive(key(a), key(b), key(c));
    }
  }

  /** Reverse code-point order on strings (`orderBy: { name: 'desc' }`). */
  function ByStringDesc<T>(key: T -> string): (T, T) -> bool {
    (a: T, b: T) => StrLe(key(b), key(a))
  }

  lemma ReverseStringOrderIsPreorder<T(!new)>(key: T -> string)
    ensures Total(ByStringDesc(key)) && Transitive(ByStringDesc(key))
  {
    forall a: T, b: T ensures ByStringDesc(key)(a, b) || ByStringDesc(key)(b, a) {
      StrLeTotal(key(a), key(b));
    }
    forall a: T, b: T, c: T | ByStringDesc(key)(a, b) && ByStringDesc(key)(b, c)
      ensures ByStringDesc(key)(a, c)
    {
      StrLeTransitive(key(c), key(b), key(a));
    }
  }

  /** Dropping elements from a sorted sequence, as a `filter` after an `orderBy` does, keeps it sorted. */
  lemma {:induction false} SubsequenceSorted<T>(a: seq<T>, b: seq<T>, le: (T, T) -> bool)
    requires Seqs.Subsequence(a, b) && Sorted(b, le)
    ensures Sorted(a, le)
    decreases |b|
  {
    if |b| > 0 {
      assert Sorted(b[1..], le);
      if |a| > 0 && a[0] == b[0] && Seqs.Subsequence(a[1..], b[1..]) {
        SubsequenceSorted(a[1..], b[1..], le);
        Seqs.SubsequenceMembers(a[1..], b[1..]);
        forall i, j | 0 <= i < j < |a| ensures le(a[i], a[j]) {
          if i == 0 {
            assert a[j] == a[1..][j - 1];
            assert a[j] in a[1..];
            var m :| 0 <= m < |b[1..]| && b[1..][m] == a[j];
            assert b[m + 1] == a[j];
          } else {
            assert a[i] == a[1..][i - 1] && a[j] == a[1..][j - 1];
          }
        }
      } else {
        SubsequenceSorted(a, b[1..], le);
      }
    }
  }
}
