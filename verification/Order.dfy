/** The orders the program sorts by, and what sorting determines.

    Every sort in the repository compares fixed-width keys: leaf hashes byte by byte,
    logs by (block, transaction index, log index), operator ids by value, table rows by
    their key columns. One lexicographic order on integer sequences covers all of them. */
module Order {

  predicate LexLe(a: seq<int>, b: seq<int>)
  {
    if a == [] then true
    else if b == [] then false
    else if a[0] != b[0] then a[0] < b[0]
    else LexLe(a[1..], b[1..])
  }

  /** The same for sequences of one length, said by the first place at which they differ. */
  ghost predicate NotAbove(a: seq<int>, b: seq<int>) {
    a == b || exists i :: 0 <= i < |a| && i < |b| && a[..i] == b[..i] && a[i] < b[i]
  }

  lemma {:induction false} LexByFirstDifference(a: seq<int>, b: seq<int>)
    requires |a| == |b|
    ensures LexLe(a, b) <==> NotAbove(a, b)
  {
    if a != [] {
      var x, y := a[1..], b[1..];
      assert a == [a[0]] + x && b == [b[0]] + y;
      LexByFirstDifference(x, y);
      if a[0] != b[0] {
        assert a[..0] == b[..0];
      } else {
        if i :| 0 <= i < |x| && x[..i] == y[..i] && x[i] < y[i] {
          assert a[..i+1] == [a[0]] + x[..i] && b[..i+1] == [b[0]] + y[..i] && a[i+1] < b[i+1];
        }
        if i :| 0 <= i < |a| && a[..i] == b[..i] && a[i] < b[i] {
          assert x[..i-1] == a[..i][1..] && y[..i-1] == b[..i][1..] && x[i-1] < y[i-1];
        }
      }
    }
  }

  lemma {:induction false} LexTotal(a: seq<int>, b: seq<int>)
    ensures LexLe(a, b) || LexLe(b, a)
  {
    if a != [] && b != [] && a[0] == b[0] { LexTotal(a[1..], b[1..]); }
  }

  lemma {:induction false} LexAntisymmetric(a: seq<int>, b: seq<int>)
    requires LexLe(a, b) && LexLe(b, a)
    ensures a == b
  {
    if a != [] && b != [] {
      LexAntisymmetric(a[1..], b[1..]);
      assert a == [a[0]] + a[1..] && b == [b[0]] + b[1..];
    }
  }

  lemma {:induction false} LexTransitive(a: seq<int>, b: seq<int>, c: seq<int>)
    requires LexLe(a, b) && LexLe(b, c)
    ensures LexLe(a, c)
  {
    if a != [] && b != [] && c != [] && a[0] == b[0] == c[0] {
      LexTransitive(a[1..], b[1..], c[1..]);
    }
  }

  ghost predicate SortedBy<T>(s: seq<T>, key: T -> seq<int>)
  {
    forall i, j | 0 <= i < j < |s| :: LexLe(key(s[i]), key(s[j]))
  }

  /** No two positions hold the same element. */
  ghost predicate Distinct<T>(s: seq<T>)
  {
    forall i, j | 0 <= i < j < |s| :: s[i] != s[j]
  }

  /** The key separates the elements of s. */
  ghost predicate Separates<T>(key: T -> seq<int>, s: seq<T>)
  {
    forall x, y | x in s && y in s && key(x) == key(y) :: x == y
  }

  function Insert<T>(x: T, s: seq<T>, key: T -> seq<int>): (r: seq<T>)
    ensures multiset(r) == multiset{x} + multiset(s)
  {
    if s == [] then [x]
    else if LexLe(key(x), key(s[0])) then assert multiset([x] + s) == multiset{x} + multiset(s); [x] + s
    else
      var t := Insert(x, s[1..], key);
      assert s == [s[0]] + s[1..];
      [s[0]] + t
  }

  function Sorted<T>(s: seq<T>, key: T -> seq<int>): (r: seq<T>)
    ensures multiset(r) == multiset(s)
  {
    if s == [] then []
    else
      assert s == [s[0]] + s[1..];
      Insert(s[0], Sorted(s[1..], key), key)
  }

  lemma {:induction false} InsertSorted<T>(x: T, s: seq<T>, key: T -> seq<int>)
    requires SortedBy(s, key)
    ensures SortedBy(Insert(x, s, key), key)
  {
    if s == [] {
    } else if LexLe(key(x), key(s[0])) {
      forall j | 0 <= j < |s| ensures LexLe(key(x), key(s[j])) {
        if j > 0 { LexTransitive(key(x), key(s[0]), key(s[j])); }
      }
    } else {
      var t := Insert(x, s[1..], key);
      InsertSorted(x, s[1..], key);
      LexTotal(key(x), key(s[0]));
      forall j | 0 <= j < |t| ensures LexLe(key(s[0]), key(t[j])) {
        assert t[j] in multiset(t);
        if t[j] != x {
          assert t[j] in multiset(s[1..]);
          assert t[j] in s[1..];
        }
      }
    }
  }

  lemma {:induction false} SortedIsSorted<T>(s: seq<T>, key: T -> seq<int>)
    ensures SortedBy(Sorted(s, key), key)
  {
    if s != [] {
      SortedIsSorted(s[1..], key);
      InsertSorted(s[0], Sorted(s[1..], key), key);
    }
  }

  /** Stands for the library sort. The result is some sorted rearrangement of s; callers
      learn nothing about the order of elements with equal keys. */
  method Sort<T(==)>(s: seq<T>, key: T -> seq<int>) returns (r: seq<T>)
    ensures multiset(r) == multiset(s)
    ensures SortedBy(r, key)
  {
    r := [];
    for i := 0 to |s|
      invariant multiset(r) == multiset(s[..i])
      invariant SortedBy(r, key)
    {
      InsertSorted(s[i], r, key);
      r := Insert(s[i], r, key);
      assert s[..i+1] == s[..i] + [s[i]];
    }
    assert s[..|s|] == s;
  }

  lemma MultisetMembers<T>(a: seq<T>, b: seq<T>)
    requires multiset(a) == multiset(b)
    ensures |a| == |b|
    ensures forall x :: x in a <==> x in b
  {
    assert |a| == |multiset(a)| == |multiset(b)| == |b|;
    forall x ensures x in a <==> x in b {
      assert x in a <==> x in multiset(a);
      assert x in b <==> x in multiset(b);
    }
  }

  /** Sorting leaves no freedom when the key separates the elements: whatever algorithm
      and whatever initial order, the result is the same sequence. */
  lemma {:induction false} SortedUnique<T>(a: seq<T>, b: seq<T>, key: T -> seq<int>)
    requires multiset(a) == multiset(b)
    requires SortedBy(a, key) && SortedBy(b, key)
    requires Separates(key, a)
    ensures a == b
  {
    hide LexLe, SortedBy, Separates;
    assert |a| == |multiset(a)| == |b|;
    if a != [] {
      HeadsAgree(a, b, key);
      TailSorted(a, key);
      TailSorted(b, key);
      RemoveAt(a, b, 0);
      assert b[..0] + b[1..] == b[1..];
      SortedUnique(a[1..], b[1..], key);
      assert a == [a[0]] + a[1..] && b == [b[0]] + b[1..];
    }
  }

  lemma TailSorted<T>(a: seq<T>, key: T -> seq<int>)
    requires a != [] && SortedBy(a, key)
    ensures SortedBy(a[1..], key)
    ensures Separates(key, a) ==> Separates(key, a[1..])
  {
    hide LexLe;
  }

  lemma HeadsAgree<T>(a: seq<T>, b: seq<T>, key: T -> seq<int>)
    requires a != [] && b != [] && multiset(a) == multiset(b)
    requires SortedBy(a, key) && SortedBy(b, key)
    requires Separates(key, a)
    ensures a[0] == b[0]
  {
    assert a[0] in multiset(b) && b[0] in multiset(a);
    var i :| 0 <= i < |b| && b[i] == a[0];
    var j :| 0 <= j < |a| && a[j] == b[0];
    LexTotal(key(a[0]), key(a[0]));
    LexAntisymmetric(key(a[0]), key(b[0]));
  }

  lemma {:induction false} DistinctMultiset<T>(a: seq<T>, b: seq<T>)
    requires Distinct(a) && Distinct(b)
    requires forall x :: x in a <==> x in b
    ensures multiset(a) == multiset(b)
  {
    forall x ensures multiset(a)[x] == multiset(b)[x] {
      DistinctCount(a, x);
      DistinctCount(b, x);
    }
  }

  lemma {:induction false} DistinctCount<T>(a: seq<T>, x: T)
    requires Distinct(a)
    ensures multiset(a)[x] == if x in a then 1 else 0
  {
    if a != [] {
      assert a == [a[0]] + a[1..];
      DistinctCount(a[1..], x);
    }
  }

  lemma DistinctFromCount<T>(a: seq<T>)
    requires forall x :: multiset(a)[x] <= 1
    ensures Distinct(a)
  {
    forall i, j | 0 <= i < j < |a| ensures a[i] != a[j] {
      assert a == a[..j] + a[j..];
      assert a[..j][i] in multiset(a[..j]) && a[j..][0] in multiset(a[j..]);
      assert multiset(a)[a[i]] == multiset(a[..j])[a[i]] + multiset(a[j..])[a[i]];
    }
  }

  /** A rearrangement of a distinct sequence is distinct. */
  lemma DistinctPermutation<T>(a: seq<T>, b: seq<T>)
    requires Distinct(a) && multiset(a) == multiset(b)
    ensures Distinct(b)
  {
    forall x ensures multiset(b)[x] <= 1 { DistinctCount(a, x); }
    DistinctFromCount(b);
  }

  function MapSeq<T, U>(s: seq<T>, f: T -> U): (r: seq<U>)
    ensures |r| == |s| && forall i | 0 <= i < |s| :: r[i] == f(s[i])
  {
    seq(|s|, i requires 0 <= i < |s| => f(s[i]))
  }

  lemma DropAt<T>(b: seq<T>, j: nat)
    requires j < |b|
    ensures multiset(b) == multiset{b[j]} + multiset(b[..j] + b[j+1..])
  {
    assert b == b[..j] + [b[j]] + b[j+1..];
  }

  lemma CancelOne<T>(x: T, p: multiset<T>, q: multiset<T>)
    requires multiset{x} + p == multiset{x} + q
    ensures p == q
  {
    assert p == (multiset{x} + p) - multiset{x};
    assert q == (multiset{x} + q) - multiset{x};
  }

  lemma RemoveAt<T>(a: seq<T>, b: seq<T>, j: nat)
    requires a != [] && j < |b| && a[0] == b[j]
    ensures multiset(a[1..]) == multiset(b[..j] + b[j+1..]) <==> multiset(a) == multiset(b)
  {
    DropAt(a, 0);
    assert a[..0] + a[1..] == a[1..];
    DropAt(b, j);
    if multiset(a) == multiset(b) {
      CancelOne(a[0], multiset(a[1..]), multiset(b[..j] + b[j+1..]));
    }
  }

  lemma {:induction false} MapSeqMultiset<T, U>(a: seq<T>, b: seq<T>, f: T -> U)
    requires multiset(a) == multiset(b)
    ensures multiset(MapSeq(a, f)) == multiset(MapSeq(b, f))
  {
    assert |a| == |multiset(a)| == |b|;
    if a != [] {
      assert a[0] in multiset(b);
      var j :| 0 <= j < |b| && b[j] == a[0];
      var c, ma, mb := b[..j] + b[j+1..], MapSeq(a, f), MapSeq(b, f);
      RemoveAt(a, b, j);
      MapSeqMultiset(a[1..], c, f);
      assert MapSeq(a[1..], f) == ma[1..] && MapSeq(c, f) == mb[..j] + mb[j+1..];
      RemoveAt(ma, mb, j);
    }
  }

  /** The elements of a finite set in some fixed order. */
  ghost function Enumerate<T(!new)>(s: set<T>): (r: seq<T>)
    ensures Distinct(r) && forall x :: x in r <==> x in s
  {
    if s == {} then []
    else
      var x :| x in s;
      [x] + Enumerate(s - {x})
  }
}
