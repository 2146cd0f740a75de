/** The insertion sort and the binary search that every ACDB table lookup relies on. */
module Search {
  import opened Bytes

  // ---------------------------------------------------------------- AcdbDataBinarySearch2

  /** Lexicographic order of the first n words: negative, zero or positive. */
  function Compare(a: seq<u32>, b: seq<u32>, n: nat): int
    requires n <= |a| && n <= |b|
  {
    if n == 0 then 0
    else if a[0] > b[0] then 1
    else if a[0] < b[0] then -1
    else Compare(a[1..], b[1..], n - 1)
  }

  /** AcdbDataCompareSearchKeys. */
  method CompareSearchKeys(left: seq<u32>, right: seq<u32>, n: nat) returns (r: int)
    requires n <= |left| && n <= |right|
    ensures r == Compare(left, right, n)
    ensures r == 0 <==> left[..n] == right[..n]
  {
    CompareIsEquality(left, right, n);
    for i := 0 to n
      invariant Compare(left, right, n) == Compare(left[i..], right[i..], n - i)
    {
      assert left[i..][1..] == left[i + 1..] && right[i..][1..] == right[i + 1..];
      if left[i] > right[i] {
        return 1;
      } else if left[i] < right[i] {
        return -1;
      }
    }
    r := 0;
  }

  lemma {:induction false} CompareIsEquality(a: seq<u32>, b: seq<u32>, n: nat)
    requires n <= |a| && n <= |b|
    ensures Compare(a, b, n) == 0 <==> a[..n] == b[..n]
  {
    if n > 0 {
      CompareIsEquality(a[1..], b[1..], n - 1);
      assert a[..n] == [a[0]] + a[1..][..n - 1] && b[..n] == [b[0]] + b[1..][..n - 1];
    }
  }

  /** The left words are smaller exactly if they are at the first place where the two differ. */
  lemma {:induction false} CompareMeans(a: seq<u32>, b: seq<u32>, n: nat)
    requires n <= |a| && n <= |b|
    ensures Compare(a, b, n) < 0 <==> exists i: nat | i < n :: a[..i] == b[..i] && a[i] < b[i]
  {
    if n > 0 {
      var x, y := a[1..], b[1..];
      CompareMeans(x, y, n - 1);
      if a[0] < b[0] {
        assert a[..0] == b[..0];
      } else if a[0] == b[0] {
        if i: nat :| i < n - 1 && x[..i] == y[..i] && x[i] < y[i] {
          assert a[..i + 1] == [a[0]] + x[..i] && b[..i + 1] == [b[0]] + y[..i];
          assert a[i + 1] < b[i + 1];
        }
        if i: nat :| i < n && a[..i] == b[..i] && a[i] < b[i] {
          assert x[..i - 1] == a[..i][1..] && y[..i - 1] == b[..i][1..];
          assert x[i - 1] < y[i - 1];
        }
      } else {
        assert forall i: nat | 0 < i < n :: a[..i][0] == a[0] && b[..i][0] == b[0];
      }
    }
  }

  lemma {:induction false} CompareTransitive(a: seq<u32>, b: seq<u32>, c: seq<u32>, n: nat)
    requires n <= |a| && n <= |b| && n <= |c|
    ensures Compare(a, b, n) == -Compare(b, a, n)
    ensures Compare(a, b, n) <= 0 && Compare(b, c, n) <= 0 ==> Compare(a, c, n) <= 0
    ensures Compare(a, b, n) < 0 && Compare(b, c, n) <= 0 ==> Compare(a, c, n) < 0
    ensures Compare(a, b, n) <= 0 && Compare(b, c, n) < 0 ==> Compare(a, c, n) < 0
  {
    if n > 0 {
      CompareTransitive(a[1..], b[1..], c[1..], n - 1);
    }
  }

  /** Rows in non-descending order of their first n words. */
  ghost predicate SortedRows(rows: seq<seq<u32>>, n: nat) {
    && (forall i | 0 <= i < |rows| :: n <= |rows[i]|)
    && forall i, j | 0 <= i < j < |rows| :: Compare(rows[i], rows[j], n) <= 0
  }

  /** What a scan from the first row finds: the first row whose first n words are those of key. */
  function FirstMatch(rows: seq<seq<u32>>, key: seq<u32>, n: nat): (r: Option<nat>)
    requires n <= |key| && forall i | 0 <= i < |rows| :: n <= |rows[i]|
    ensures r.Some? ==> r.value < |rows| && rows[r.value][..n] == key[..n]
    ensures r.Some? ==> forall j | 0 <= j < r.value :: rows[j][..n] != key[..n]
    ensures r.None? ==> forall j | 0 <= j < |rows| :: rows[j][..n] != key[..n]
  {
    if rows == [] then None
    else if rows[0][..n] == key[..n] then Some(0)
    else
      match FirstMatch(rows[1..], key, n)
      case None => None
      case Some(i) => Some(i + 1)
  }

  /**
    AcdbDataBinarySearch2. The source also reads the row in front of the table when it steps back
    from row zero; whatever is there, it stays at row zero.
   */
  method BinarySearch(rows: seq<seq<u32>>, key: seq<u32>, n: nat) returns (r: Option<nat>)
    requires n <= |key| && SortedRows(rows, n)
    ensures r == FirstMatch(rows, key, n)
  {
    var min, max := 0, |rows| - 1;
    while max >= min
      invariant 0 <= min <= max + 1 <= |rows|
      invariant forall i | 0 <= i < min :: Compare(rows[i], key, n) < 0
      invariant forall i | max < i < |rows| :: Compare(key, rows[i], n) < 0
      decreases max - min
    {
      var mid := (min + max) / 2;
      var c := CompareSearchKeys(key, rows[mid], n);
      if c < 0 {
        forall i | mid <= i < |rows|
          ensures Compare(key, rows[i], n) < 0
        {
          CompareTransitive(key, rows[mid], rows[i], n);
        }
        max := mid - 1;
      } else if c > 0 {
        forall i | 0 <= i <= mid
          ensures Compare(rows[i], key, n) < 0
        {
          CompareTransitive(key, rows[mid], key, n);
          CompareTransitive(rows[i], rows[mid], key, n);
        }
        min := mid + 1;
      } else {
        while mid > min
          invariant min <= mid < |rows| && rows[mid][..n] == key[..n]
          decreases mid
        {
          c := CompareSearchKeys(key, rows[mid - 1], n);
          if c != 0 {
            break;
          }
          mid := mid - 1;
        }
        NothingBefore(rows, key, n, min, mid);
        return Some(mid);
      }
    }
    forall i | 0 <= i < |rows|
      ensures rows[i][..n] != key[..n]
    {
      CompareTransitive(key, rows[i], key, n);
      CompareIsEquality(key, rows[i], n);
    }
    r := None;
  }

  lemma NothingBefore(rows: seq<seq<u32>>, key: seq<u32>, n: nat, min: nat, mid: nat)
    requires n <= |key| && SortedRows(rows, n)
    requires min <= mid < |rows| && rows[mid][..n] == key[..n]
    requires forall i | 0 <= i < min :: Compare(rows[i], key, n) < 0
    requires mid > min ==> rows[mid - 1][..n] != key[..n]
    ensures FirstMatch(rows, key, n) == Some(mid)
  {
    forall j | 0 <= j < mid
      ensures rows[j][..n] != key[..n]
    {
      NotBefore(rows, key, n, min, mid, j);
    }
  }

  lemma NotBefore(rows: seq<seq<u32>>, key: seq<u32>, n: nat, min: nat, mid: nat, j: nat)
    requires n <= |key| && SortedRows(rows, n)
    requires j < mid && min <= mid < |rows| && rows[mid][..n] == key[..n]
    requires forall i | 0 <= i < min :: Compare(rows[i], key, n) < 0
    requires mid > min ==> rows[mid - 1][..n] != key[..n]
    ensures rows[j][..n] != key[..n]
  {
    hide Compare;
    CompareIsEquality(rows[j], key, n);
    if rows[j][..n] == key[..n] {
      var prev := rows[mid - 1];
      CompareIsEquality(key, rows[j], n);
      CompareIsEquality(rows[mid], key, n);
      CompareIsEquality(prev, key, n);
      CompareTransitive(key, rows[j], prev, n);
      CompareTransitive(prev, rows[mid], key, n);
      CompareTransitive(prev, key, key, n);
      assert false;
    }
  }

  function AsRows(l: seq<u32>): (r: seq<seq<u32>>)
    ensures |r| == |l| && forall i | 0 <= i < |l| :: r[i] == [l[i]]
  {
    seq(|l|, i requires 0 <= i < |l| => [l[i]])
  }

  /** The search in a sorted list of single words. */
  method ListContains(l: seq<u32>, key: u32) returns (found: bool)
    requires forall i, j | 0 <= i < j < |l| :: l[i] <= l[j]
    ensures found == (key in l)
  {
    var rows := AsRows(l);
    var r := BinarySearch(rows, [key], 1);
    found := r.Some?;
    forall i | 0 <= i < |l|
      ensures rows[i][..1] == [key][..1] <==> l[i] == key
    {
      assert rows[i][..1] == [l[i]] && [key][..1] == [key];
    }
  }

  // ---------------------------------------------------------------- AcdbSort2

  predicate SortedBy<T>(key: T -> nat, s: seq<T>) {
    forall i, j | 0 <= i < j < |s| :: key(s[i]) <= key(s[j])
  }

  ghost predicate Permuted<T>(a: seq<T>, b: seq<T>) {
    multiset(a) == multiset(b)
  }

  lemma PermutedMembers<T>(a: seq<T>, b: seq<T>)
    requires Permuted(a, b)
    ensures |a| == |b| && forall x :: x in a <==> x in b
  {
    assert |multiset(a)| == |multiset(b)|;
    forall x
      ensures x in a <==> x in b
    {
      assert x in multiset(a) <==> x in multiset(b);
    }
  }

  lemma WithoutOne<T>(b: seq<T>, i: nat)
    requires i < |b|
    ensures multiset(b) == multiset(b[..i] + b[i + 1..]) + multiset{b[i]}
  {
    assert b == b[..i] + [b[i]] + b[i + 1..];
  }

  lemma CancelOne<T>(x: multiset<T>, y: multiset<T>, e: T)
    requires x + multiset{e} == y + multiset{e}
    ensures x == y
  {
    assert x == x + multiset{e} - multiset{e};
    assert y == y + multiset{e} - multiset{e};
  }

  /** Take the last element of one list out of the other, wherever it is there. */
  lemma PermutedTakeOut<T>(a: seq<T>, b: seq<T>) returns (i: nat)
    requires Permuted(a, b) && a != []
    ensures i < |b| && b[i] == a[|a| - 1] && Permuted(a[..|a| - 1], b[..i] + b[i + 1..])
  {
    var n := |a| - 1;
    PermutedMembers(a, b);
    assert a[n] in a;
    i :| 0 <= i < |b| && b[i] == a[n];
    WithoutOne(b, i);
    WithoutOne(a, n);
    assert a[..n] + a[n + 1..] == a[..n];
    CancelOne(multiset(a[..n]), multiset(b[..i] + b[i + 1..]), a[n]);
  }

  lemma {:induction false} SumPermuted<T>(f: T -> nat, a: seq<T>, b: seq<T>)
    requires Permuted(a, b)
    ensures Sum(f, a) == Sum(f, b)
  {
    if a == [] {
      PermutedMembers(a, b);
    } else {
      var i := PermutedTakeOut(a, b);
      SumPermuted(f, a[..|a| - 1], b[..i] + b[i + 1..]);
      SumConcat(f, b[..i], b[i + 1..]);
      assert b == b[..i] + [b[i]] + b[i + 1..];
      SumConcat(f, b[..i] + [b[i]], b[i + 1..]);
      SumSnoc(f, b[..i], b[i]);
    }
  }

  lemma FlatWithout<T, U>(f: T -> seq<U>, b: seq<T>, i: nat)
    requires i < |b|
    ensures multiset(Flat(f, b)) == multiset(Flat(f, b[..i] + b[i + 1..])) + multiset(f(b[i]))
  {
    hide Flat;
    FlatConcat(f, b[..i], b[i + 1..]);
    assert b == b[..i] + [b[i]] + b[i + 1..];
    FlatConcat(f, b[..i] + [b[i]], b[i + 1..]);
    FlatSnoc(f, b[..i], b[i]);
  }

  lemma {:induction false} FlatPermuted<T, U>(f: T -> seq<U>, a: seq<T>, b: seq<T>)
    requires Permuted(a, b)
    ensures multiset(Flat(f, a)) == multiset(Flat(f, b))
  {
    if a == [] {
      PermutedMembers(a, b);
    } else {
      var i := PermutedTakeOut(a, b);
      FlatPermuted(f, a[..|a| - 1], b[..i] + b[i + 1..]);
      FlatWithout(f, b, i);
    }
  }

  predicate Distinct<T(==)>(s: seq<T>) {
    forall i, j | 0 <= i < j < |s| :: s[i] != s[j]
  }

  lemma {:induction false} DistinctSize<T>(s: seq<T>)
    requires Distinct(s)
    ensures |set x | x in s| == |s|
  {
    if s != [] {
      var n := |s| - 1;
      DistinctSize(s[..n]);
      assert s[n] !in s[..n];
      assert (set x | x in s) == (set x | x in s[..n]) + {s[n]};
    }
  }

  lemma SameSize<T>(a: seq<T>, b: seq<T>)
    requires Distinct(a) && Distinct(b) && forall x :: x in a <==> x in b
    ensures |a| == |b|
  {
    DistinctSize(a);
    DistinctSize(b);
    assert (set x | x in a) == (set x | x in b);
  }

  lemma SwapPermutes<T>(a: seq<T>, j: nat, b: seq<T>)
    requires j + 1 < |a| == |b|
    requires b == a[j := a[j + 1]][j + 1 := a[j]]
    ensures Permuted(b, a)
  {
    assert a == a[..j] + [a[j], a[j + 1]] + a[j + 2..];
    assert b == a[..j] + [a[j + 1], a[j]] + a[j + 2..];
    assert multiset([a[j], a[j + 1]]) == multiset([a[j + 1], a[j]]);
  }

  /** Everything up to n is in order, but for the element at j, which no later one precedes. */
  ghost predicate Sinking<T>(key: T -> nat, s: seq<T>, j: int, n: nat) {
    && -1 <= j < n < |s|
    && (forall x, y | 0 <= x < y <= n && y != j + 1 :: key(s[x]) <= key(s[y]))
    && forall y | j + 1 < y <= n :: key(s[j + 1]) <= key(s[y])
  }

  lemma SinkStep<T>(key: T -> nat, s: seq<T>, j: nat, n: nat)
    requires Sinking(key, s, j, n)
    ensures Sinking(key, if key(s[j]) > key(s[j + 1]) then s[j := s[j + 1]][j + 1 := s[j]] else s, j - 1, n)
  {
  }

  /** The inner loop: neighbours out of order are swapped, from the element just reached back to the front. */
  method SinkElement<T>(key: T -> nat, a: array<T>, i: nat)
    requires i + 1 < a.Length && SortedBy(key, a[..i + 1])
    modifies a
    ensures SortedBy(key, a[..i + 2]) && Permuted(a[..], old(a[..]))
    ensures SortedBy(key, old(a[..])) ==> a[..] == old(a[..])
  {
    var j := i;
    assert forall x | 0 <= x <= i :: a[x] == a[..i + 1][x];
    while j > -1
      invariant Sinking(key, a[..], j, i + 1) && Permuted(a[..], old(a[..]))
      invariant SortedBy(key, old(a[..])) ==> a[..] == old(a[..])
    {
      ghost var before := a[..];
      SinkStep(key, before, j, i + 1);
      if key(a[j]) > key(a[j + 1]) {
        assert !SortedBy(key, before);
        a[j], a[j + 1] := a[j + 1], a[j];
        SwapPermutes(before, j, a[..]);
      }
      j := j - 1;
    }
  }

  /** AcdbSort2; an array that is sorted already stays as it is. */
  method Sort2<T>(key: T -> nat, a: array<T>) returns (status: Status)
    modifies a
    ensures status == if a.Length == 0 then EBADPARAM else EOK
    ensures SortedBy(key, a[..]) && Permuted(a[..], old(a[..]))
    ensures SortedBy(key, old(a[..])) ==> a[..] == old(a[..])
  {
    if a.Length == 0 {
      return EBADPARAM;
    }
    status := EOK;
    for i := 0 to a.Length - 1
      invariant SortedBy(key, a[..i + 1]) && Permuted(a[..], old(a[..]))
      invariant SortedBy(key, old(a[..])) ==> a[..] == old(a[..])
    {
      SinkElement(key, a, i);
    }
    assert a[..] == a[..a.Length - 1 + 1];
  }
}
