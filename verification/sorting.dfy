/** Sorting by a caller-supplied total preorder, standing in for SQL `ORDER BY`
    (whose order among ties the database leaves open). */
module Sorting {

  ghost predicate TotalPreorder<T(!new)>(le: (T, T) -> bool) {
    && (forall a, b :: le(a, b) || le(b, a))
    && (forall a, b, c :: le(a, b) && le(b, c) ==> le(a, c))
  }

  predicate SortedBy<T>(s: seq<T>, le: (T, T) -> bool) {
    forall i, j :: 0 <= i < j < |s| ==> le(s[i], s[j])
  }

  /** `x` placed into sorted `s` before the first element it precedes. */
  function Insert<T(!new)>(x: T, s: seq<T>, le: (T, T) -> bool): (r: seq<T>)
    requires TotalPreorder(le)
    requires SortedBy(s, le)
    ensures SortedBy(r, le)
    ensures multiset(r) == multiset(s) + multiset{x}
    ensures |r| == |s| + 1
  {
    if s == [] then [x]
    else if le(x, s[0]) then
      assert SortedBy([x] + s, le) by {
        forall i, j | 0 <= i < j < |[x] + s|
          ensures le(([x] + s)[i], ([x] + s)[j])
        {
          if i == 0 && j > 1 {
            assert le(s[0], s[j - 1]);
          }
        }
      }
      [x] + s
    else
      var rest := Insert(x, s[1..], le);
      assert s == [s[0]] + s[1..];
      HeadBeforeInsert(x, s, le, rest);
      ConsSorted(s[0], rest, le);
      [s[0]] + rest
  }

  /** The head of sorted `s`, when it precedes `x`, precedes everything
      `x` inserted into the tail holds. */
  lemma HeadBeforeInsert<T(!new)>(x: T, s: seq<T>, le: (T, T) -> bool, rest: seq<T>)
    requires TotalPreorder(le) && SortedBy(s, le) && s != [] && le(s[0], x)
    requires multiset(rest) == multiset(s[1..]) + multiset{x}
    ensures forall k :: 0 <= k < |rest| ==> le(s[0], rest[k])
  {
    forall k | 0 <= k < |rest|
      ensures le(s[0], rest[k])
    {
      assert rest[k] in multiset(rest);
      assert rest[k] in multiset(s[1..]) || rest[k] == x;
      if rest[k] != x {
        var m :| 0 <= m < |s[1..]| && s[1..][m] == rest[k];
        assert le(s[0], s[m + 1]);
      }
    }
  }

  lemma ConsSorted<T>(h: T, rest: seq<T>, le: (T, T) -> bool)
    requires SortedBy(rest, le)
    requires forall k :: 0 <= k < |rest| ==> le(h, rest[k])
    ensures SortedBy([h] + rest, le)
  {
    forall i, j | 0 <= i < j < |[h] + rest|
      ensures le(([h] + rest)[i], ([h] + rest)[j])
    {
      if i > 0 {
        assert ([h] + rest)[i] == rest[i - 1];
      }
    }
  }

  /** Insertion sort: an ordered permutation of `s`. */
  function Sort<T(!new)>(s: seq<T>, le: (T, T) -> bool): (r: seq<T>)
    requires TotalPreorder(le)
    ensures SortedBy(r, le)
    ensures multiset(r) == multiset(s)
    ensures |r| == |s|
  {
    if s == [] then []
    else
      assert s == s[..|s| - 1] + [s[|s| - 1]];
      Insert(s[|s| - 1], Sort(s[..|s| - 1], le), le)
  }

  function Min(a: nat, b: nat): nat {
    if a < b then a else b
  }

  /** `ORDER BY … LIMIT n`: the first `n` rows of the ordered table. A row
      left out is ordered after every row kept. */
  function TopBy<T(!new)>(s: seq<T>, le: (T, T) -> bool, n: nat): (r: seq<T>)
    requires TotalPreorder(le)
    ensures |r| == Min(n, |s|)
    ensures SortedBy(r, le)
    ensures multiset(r) <= multiset(s)
    ensures |s| <= n ==> multiset(r) == multiset(s)
    ensures forall x :: x in s && x !in r ==> forall i :: 0 <= i < |r| ==> le(r[i], x)
    ensures forall i :: 0 <= i < |r| ==> r[i] in s
  {
    var sorted := Sort(s, le);
    var r := sorted[..Min(n, |s|)];
    PrefixMultiset(sorted, |r|);
    Members(r, s);
    PrefixComesFirst(sorted, |r|, le);
    Members(s, sorted);
    r
  }

  /** A prefix and the rest make up the whole multiset. */
  lemma PrefixMultiset<T>(s: seq<T>, k: nat)
    requires k <= |s|
    ensures multiset(s) == multiset(s[..k]) + multiset(s[k..])
  {
    assert s == s[..k] + s[k..];
  }

  /** Every entry of `a` occurs in `b` when `b` holds at least `a`'s multiset. */
  lemma Members<T>(a: seq<T>, b: seq<T>)
    requires multiset(a) <= multiset(b)
    ensures forall i :: 0 <= i < |a| ==> a[i] in b
  {
    forall i | 0 <= i < |a| ensures a[i] in b {
      assert a[i] in multiset(a);
    }
  }

  /** No two entries of `s` share a key. */
  predicate KeysApart<T, K(==)>(s: seq<T>, key: T -> K) {
    forall i, j :: 0 <= i < j < |s| ==> key(s[i]) != key(s[j])
  }

  /** Taking rows never repeats one: rows drawn from rows with pairwise
      different keys have pairwise different keys. */
  lemma SubMultisetKeysApart<T, K>(r: seq<T>, s: seq<T>, key: T -> K)
    requires multiset(r) <= multiset(s) && KeysApart(s, key)
    ensures KeysApart(r, key)
  {
    forall i, j | 0 <= i < j < |r| ensures key(r[i]) != key(r[j]) {
      assert r[i] in multiset(s) && r[j] in multiset(s);
      var a :| 0 <= a < |s| && s[a] == r[i];
      var b :| 0 <= b < |s| && s[b] == r[j];
      if a == b {
        TwiceCounted(r, i, j);
        AtMostOnce(s, key, r[i]);
      }
    }
  }

  /** An entry at two positions is counted at least twice. */
  lemma TwiceCounted<T>(s: seq<T>, i: nat, j: nat)
    requires i < j < |s| && s[i] == s[j]
    ensures multiset(s)[s[i]] >= 2
  {
    PrefixMultiset(s, j);
    assert s[i] in s[..j] && s[j] in s[j..];
  }

  /** With pairwise different keys no entry occurs twice. */
  lemma {:induction false} AtMostOnce<T, K>(s: seq<T>, key: T -> K, x: T)
    requires KeysApart(s, key)
    ensures multiset(s)[x] <= 1
  {
    if s != [] {
      assert s == [s[0]] + s[1..];
      AtMostOnce(s[1..], key, x);
      forall b | 0 <= b < |s[1..]| ensures s[1..][b] != s[0] {
        assert key(s[0]) != key(s[b + 1]);
      }
    }
  }

  /** In a sorted sequence, every entry past the first `k` follows each of them. */
  lemma PrefixComesFirst<T>(s: seq<T>, k: nat, le: (T, T) -> bool)
    requires k <= |s| && SortedBy(s, le)
    ensures forall x :: x in s && x !in s[..k] ==> forall i :: 0 <= i < k ==> le(s[i], x)
  {
    forall x | x in s && x !in s[..k]
      ensures forall i :: 0 <= i < k ==> le(s[i], x)
    {
      var j :| 0 <= j < |s| && s[j] == x;
      assert j >= k;
    }
  }

  /** Code-point order on strings: the `C` collation. */
  predicate StrLe(a: string, b: string) {
    a == [] || (b != [] && (a[0] < b[0] || (a[0] == b[0] && StrLe(a[1..], b[1..]))))
  }

  lemma {:induction false} StrLeTotal(a: string, b: string)
    ensures StrLe(a, b) || StrLe(b, a)
    decreases |a|
  {
    if a != [] && b != [] && a[0] == b[0] {
      StrLeTotal(a[1..], b[1..]);
    }
  }

  lemma {:induction false} StrLeTransitive(a: string, b: string, c: string)
    requires StrLe(a, b) && StrLe(b, c)
    ensures StrLe(a, c)
    decreases |a|
  {
    if a != [] && a[0] == b[0] && b[0] == c[0] {
      StrLeTransitive(a[1..], b[1..], c[1..]);
    }
  }

  lemma {:induction false} StrLeAntisymmetric(a: string, b: string)
    requires StrLe(a, b) && StrLe(b, a)
    ensures a == b
    decreases |a|
  {
    if a != [] {
      StrLeAntisymmetric(a[1..], b[1..]);
      assert a == [a[0]] + a[1..] && b == [b[0]] + b[1..];
    }
  }

  lemma StrLeIsTotalPreorder()
    ensures TotalPreorder(StrLe)
  {
    forall a, b ensures StrLe(a, b) || StrLe(b, a) {
      StrLeTotal(a, b);
    }
    forall a, b, c | StrLe(a, b) && StrLe(b, c) ensures StrLe(a, c) {
      StrLeTransitive(a, b, c);
    }
  }
}
