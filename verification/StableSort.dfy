/** sort.SliceStable by an integer rank and then a name: what a stable sort of a list is, that there
    is only one, and an insertion sort that finds it. */
module StableSort {

  datatype Key = Key(rank: int, name: string)

  /** The order of Go strings, on code points. */
  predicate StringLess(a: string, b: string) {
    b != "" && (a == "" || a[0] < b[0] || (a[0] == b[0] && StringLess(a[1..], b[1..])))
  }

  /** The texts agree up to position i, where a ends or has the smaller character. */
  predicate SmallerAt(a: string, b: string, i: nat) {
    i <= |a| && i < |b| && a[..i] == b[..i] && (i == |a| || a[i] < b[i])
  }

  lemma {:induction false} StringLessIff(a: string, b: string)
    ensures StringLess(a, b) <==> exists i: nat :: SmallerAt(a, b, i)
  {
    if b != "" && (a == "" || a[0] < b[0]) {
      assert SmallerAt(a, b, 0);
    } else if b != "" && a[0] == b[0] {
      StringLessIff(a[1..], b[1..]);
      if i: nat :| SmallerAt(a[1..], b[1..], i) {
        assert a[..i + 1] == [a[0]] + a[1..][..i] && b[..i + 1] == [b[0]] + b[1..][..i];
        assert SmallerAt(a, b, i + 1);
      }
      if i: nat :| SmallerAt(a, b, i) {
        assert i > 0 && a[1..][..i - 1] == a[..i][1..] == b[..i][1..] == b[1..][..i - 1];
        assert SmallerAt(a[1..], b[1..], i - 1);
      }
    }
  }

  predicate Less(a: Key, b: Key) {
    a.rank < b.rank || (a.rank == b.rank && StringLess(a.name, b.name))
  }

  lemma {:induction false} StringOrder(a: string, b: string, c: string)
    ensures !(StringLess(a, b) && StringLess(b, a))
    ensures !StringLess(a, b) && !StringLess(b, a) ==> a == b
    ensures StringLess(a, b) && StringLess(b, c) ==> StringLess(a, c)
  {
    if a != "" && b != "" && a[0] == b[0] {
      StringOrder(a[1..], b[1..], if c == "" then "" else c[1..]);
      assert a == [a[0]] + a[1..] && b == [b[0]] + b[1..];
    }
  }

  /** Less is a strict total order. */
  lemma KeyOrder(a: Key, b: Key, c: Key)
    ensures !(Less(a, b) && Less(b, a))
    ensures !Less(a, b) && !Less(b, a) ==> a == b
    ensures Less(a, b) && Less(b, c) ==> Less(a, c)
  {
    StringOrder(a.name, b.name, c.name);
  }

  ghost predicate InOrder<T>(s: seq<T>, key: T -> Key) {
    forall i, j :: 0 <= i < j < |s| ==> !Less(key(s[j]), key(s[i]))
  }

  /** The elements with one key, in their order. */
  function WithKey<T>(s: seq<T>, key: T -> Key, k: Key): seq<T> {
    if s == [] then [] else (if key(s[0]) == k then [s[0]] else []) + WithKey(s[1..], key, k)
  }

  /** t is s sorted, and elements with equal keys have kept their order. */
  ghost predicate IsStableSort<T(!new)>(s: seq<T>, t: seq<T>, key: T -> Key) {
    InOrder(t, key) && forall k :: WithKey(t, key, k) == WithKey(s, key, k)
  }

  // ---------------------------------------------------------------- what follows from it

  lemma {:induction false} WithKeyFirst<T>(s: seq<T>, key: T -> Key, k: Key, i: nat)
    requires i < |s| && key(s[i]) == k
    ensures WithKey(s, key, k) != []
    ensures key(s[0]) == k ==> WithKey(s, key, k)[0] == s[0]
  {
    if i > 0 {
      WithKeyFirst(s[1..], key, k, i - 1);
    }
  }

  lemma {:induction false} WithKeyComesFrom<T>(s: seq<T>, key: T -> Key, k: Key) returns (i: nat)
    requires WithKey(s, key, k) != []
    ensures i < |s| && key(s[i]) == k
  {
    if key(s[0]) == k {
      i := 0;
    } else {
      i := WithKeyComesFrom(s[1..], key, k);
      i := i + 1;
    }
  }

  lemma SameHead<T(!new)>(a: seq<T>, b: seq<T>, key: T -> Key)
    requires InOrder(a, key) && InOrder(b, key) && a != []
    requires forall k :: WithKey(a, key, k) == WithKey(b, key, k)
    ensures b != [] && a[0] == b[0]
  {
    var ka := key(a[0]);
    WithKeyFirst(a, key, ka, 0);
    var i := WithKeyComesFrom(b, key, ka);
    var kb := key(b[0]);
    WithKeyFirst(b, key, kb, 0);
    var j := WithKeyComesFrom(a, key, kb);
    KeyOrder(ka, kb, ka);
    assert !Less(key(b[i]), key(b[0])) || i == 0;
    assert !Less(key(a[j]), key(a[0])) || j == 0;
    assert ka == kb;
  }

  /** There is only one stable sort. */
  lemma {:induction false} StableSortIsUnique<T(!new)>(a: seq<T>, b: seq<T>, key: T -> Key)
    requires InOrder(a, key) && InOrder(b, key)
    requires forall k :: WithKey(a, key, k) == WithKey(b, key, k)
    ensures a == b
  {
    if a == [] {
      assert b == [] || WithKey(b, key, key(b[0])) == WithKey(a, key, key(b[0]));
    } else {
      SameHead(a, b, key);
      forall k ensures WithKey(a[1..], key, k) == WithKey(b[1..], key, k) {
        var head := if key(a[0]) == k then [a[0]] else [];
        assert WithKey(a, key, k) == head + WithKey(a[1..], key, k);
        assert WithKey(b, key, k) == head + WithKey(b[1..], key, k);
        assert WithKey(a, key, k)[|head|..] == WithKey(b, key, k)[|head|..];
      }
      StableSortIsUnique(a[1..], b[1..], key);
      assert a == [a[0]] + a[1..] && b == [b[0]] + b[1..];
    }
  }

  lemma {:induction false} CountIsInBucket<T>(s: seq<T>, key: T -> Key, x: T)
    ensures multiset(s)[x] == multiset(WithKey(s, key, key(x)))[x]
  {
    if s != [] {
      CountIsInBucket(s[1..], key, x);
      assert s == [s[0]] + s[1..];
    }
  }

  /** A stable sort is a permutation. */
  lemma StableSortPermutes<T(!new)>(s: seq<T>, t: seq<T>, key: T -> Key)
    requires IsStableSort(s, t, key)
    ensures multiset(t) == multiset(s) && |t| == |s|
  {
    forall x ensures multiset(t)[x] == multiset(s)[x] {
      CountIsInBucket(t, key, x);
      CountIsInBucket(s, key, x);
    }
    assert |multiset(t)| == |t| && |multiset(s)| == |s|;
  }

  // ---------------------------------------------------------------- the sort

  /** An element goes before the first one that is not less than it. */
  function Insert<T>(x: T, s: seq<T>, key: T -> Key): (t: seq<T>)
    ensures |t| == |s| + 1
  {
    if s == [] || !Less(key(s[0]), key(x)) then [x] + s else [s[0]] + Insert(x, s[1..], key)
  }

  function Sorted<T>(s: seq<T>, key: T -> Key): (t: seq<T>)
    ensures |t| == |s|
  {
    if s == [] then [] else Insert(s[0], Sorted(s[1..], key), key)
  }

  lemma {:induction false} InsertElement<T>(x: T, s: seq<T>, key: T -> Key, j: nat)
    requires j <= |s|
    ensures Insert(x, s, key)[j] == x || Insert(x, s, key)[j] in s
  {
    if s != [] && Less(key(s[0]), key(x)) && j > 0 {
      InsertElement(x, s[1..], key, j - 1);
    }
  }

  lemma {:induction false} InsertKeepsOrder<T>(x: T, s: seq<T>, key: T -> Key)
    requires InOrder(s, key)
    ensures InOrder(Insert(x, s, key), key)
  {
    var t := Insert(x, s, key);
    if s == [] || !Less(key(s[0]), key(x)) {
      forall j | 0 < j < |t| ensures !Less(key(t[j]), key(t[0])) {
        assert t[j] == s[j - 1];
        if j > 1 {
          KeyOrder(key(s[j - 1]), key(x), key(s[0]));
          KeyOrder(key(x), key(s[0]), key(s[j - 1]));
          KeyOrder(key(s[0]), key(x), key(s[j - 1]));
        }
      }
    } else {
      var rest := Insert(x, s[1..], key);
      InsertKeepsOrder(x, s[1..], key);
      forall j | 0 <= j < |rest| ensures !Less(key(rest[j]), key(s[0])) {
        KeyOrder(key(s[0]), key(x), key(s[0]));
        InsertElement(x, s[1..], key, j);
        if rest[j] != x {
          var i :| 0 <= i < |s| - 1 && s[1..][i] == rest[j];
          assert s[i + 1] == rest[j];
        }
      }
    }
  }

  lemma {:induction false} InsertKeepsBuckets<T>(x: T, s: seq<T>, key: T -> Key, k: Key)
    ensures WithKey(Insert(x, s, key), key, k) == (if key(x) == k then [x] else []) + WithKey(s, key, k)
  {
    var t := Insert(x, s, key);
    if s == [] || !Less(key(s[0]), key(x)) {
      assert t[1..] == s;
    } else {
      InsertKeepsBuckets(x, s[1..], key, k);
      assert t[1..] == Insert(x, s[1..], key);
      KeyOrder(key(s[0]), key(x), k);
      assert key(s[0]) != key(x);
    }
  }

  lemma {:induction false} SortedIsStable<T(!new)>(s: seq<T>, key: T -> Key)
    ensures IsStableSort(s, Sorted(s, key), key)
  {
    if s != [] {
      var rest := Sorted(s[1..], key);
      SortedIsStable(s[1..], key);
      InsertKeepsOrder(s[0], rest, key);
      forall k ensures WithKey(Sorted(s, key), key, k) == WithKey(s, key, k) {
        InsertKeepsBuckets(s[0], rest, key, k);
        assert WithKey(rest, key, k) == WithKey(s[1..], key, k);
      }
    }
  }

  /** Whatever algorithm the library uses, its stable sort is Sorted. */
  lemma AnyStableSortIsSorted<T(!new)>(s: seq<T>, t: seq<T>, key: T -> Key)
    requires IsStableSort(s, t, key)
    ensures t == Sorted(s, key)
  {
    SortedIsStable(s, key);
    StableSortIsUnique(t, Sorted(s, key), key);
  }

  /** The library's in-place sort, known here by what it guarantees. */
  method SortStable<T>(a: array<T>, key: T -> Key)
    modifies a
    ensures a[..] == Sorted(old(a[..]), key)
  {
    var t := Sorted(a[..], key);
    for i := 0 to a.Length
      invariant a[..i] == t[..i]
    {
      a[i] := t[i];
    }
    assert a[..] == a[..a.Length] && t[..a.Length] == t;
  }
}
