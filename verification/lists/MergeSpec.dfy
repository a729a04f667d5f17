/** The value-level meaning of the list macros' merge sort and ordered insertion.

    A list macro takes its comparison as `cmp(a, b)`, a C expression whose sign orders
    two elements.  Here it is a function; nothing is assumed of it beyond what a lemma
    states for the elements in some set `u`. */
module MergeSpec {

  /** `a` may stand before `b`: the test the sort macros make. */
  predicate Leq<T>(cmp: (T, T) -> int, a: T, b: T) {
    cmp(a, b) <= 0
  }

  predicate Equivalent<T>(cmp: (T, T) -> int, a: T, b: T) {
    Leq(cmp, a, b) && Leq(cmp, b, a)
  }

  /** What sorting needs of a comparison on the elements of `u`. */
  ghost predicate Preorder<T>(cmp: (T, T) -> int, u: set<T>) {
    && (forall a, b | a in u && b in u :: Leq(cmp, a, b) || Leq(cmp, b, a))
    && (forall a, b, c | a in u && b in u && c in u ::
          Leq(cmp, a, b) && Leq(cmp, b, c) ==> Leq(cmp, a, c))
  }

  /** Ordered insertion reads the comparison with its arguments swapped, so it also
      needs the sign to flip with them. */
  ghost predicate Antisymmetric<T>(cmp: (T, T) -> int, u: set<T>) {
    forall a, b | a in u && b in u && a != b :: cmp(a, b) >= 0 <==> Leq(cmp, b, a)
  }

  ghost predicate Within<T>(s: seq<T>, u: set<T>) {
    forall x | x in s :: x in u
  }

  ghost predicate Sorted<T>(cmp: (T, T) -> int, s: seq<T>) {
    forall i, j | 0 <= i < j < |s| :: Leq(cmp, s[i], s[j])
  }

  /** The elements of `s` that compare equal to `x`, in their order in `s`. */
  function Class<T>(cmp: (T, T) -> int, x: T, s: seq<T>): seq<T> {
    if s == [] then []
    else if Equivalent(cmp, x, s[0]) then [s[0]] + Class(cmp, x, s[1..])
    else Class(cmp, x, s[1..])
  }

  /** Equal elements keep their order. */
  ghost predicate Stable<T>(cmp: (T, T) -> int, s: seq<T>, t: seq<T>) {
    forall x | x in s :: Class(cmp, x, t) == Class(cmp, x, s)
  }

  // ----- ordered insertion -----

  /** `x` goes before the first element that it may precede. */
  function Insert<T>(cmp: (T, T) -> int, x: T, s: seq<T>): (r: seq<T>)
    ensures |r| == |s| + 1
  {
    if s == [] then [x]
    else if Leq(cmp, x, s[0]) then [x] + s
    else [s[0]] + Insert(cmp, x, s[1..])
  }

  /** Inserts the elements of `s` into `acc`, the last one first. */
  function InsertAll<T>(cmp: (T, T) -> int, s: seq<T>, acc: seq<T>): (r: seq<T>)
    ensures |r| == |s| + |acc|
  {
    if s == [] then acc
    else Insert(cmp, s[0], InsertAll(cmp, s[1..], acc))
  }

  function InsertionSort<T>(cmp: (T, T) -> int, s: seq<T>): (r: seq<T>)
    ensures |r| == |s|
  {
    InsertAll(cmp, s, [])
  }

  // ----- merge sort, bottom up -----

  function Min(a: nat, b: nat): nat {
    if a <= b then a else b
  }

  /** Ties are taken from the left run. */
  function Merge<T>(cmp: (T, T) -> int, a: seq<T>, b: seq<T>): (r: seq<T>)
    ensures |r| == |a| + |b|
  {
    if a == [] then b
    else if b == [] then a
    else if Leq(cmp, a[0], b[0]) then [a[0]] + Merge(cmp, a[1..], b)
    else [b[0]] + Merge(cmp, a, b[1..])
  }

  /** One pass: merges neighbouring runs of `k` elements pairwise. */
  function Pass<T>(cmp: (T, T) -> int, k: nat, s: seq<T>): (r: seq<T>)
    requires 0 < k
    ensures |r| == |s|
    decreases |s|
  {
    if s == [] then []
    else
      var mid := Min(k, |s|);
      var end := Min(2 * k, |s|);
      Merge(cmp, s[..mid], s[mid..end]) + Pass(cmp, k, s[end..])
  }

  /** Passes with doubling run length, until a pass makes at most one merge. */
  function Passes<T>(cmp: (T, T) -> int, k: nat, s: seq<T>): (r: seq<T>)
    requires 0 < k
    ensures |r| == |s|
    decreases |s| - k
  {
    if |s| <= 2 * k then Pass(cmp, k, s) else Passes(cmp, 2 * k, Pass(cmp, k, s))
  }

  function MergeSort<T>(cmp: (T, T) -> int, s: seq<T>): (r: seq<T>)
    ensures |r| == |s|
  {
    Passes(cmp, 1, s)
  }

  // ----- what holds for any comparison -----

  lemma {:induction false} MergePermutes<T>(cmp: (T, T) -> int, a: seq<T>, b: seq<T>)
    ensures multiset(Merge(cmp, a, b)) == multiset(a) + multiset(b)
  {
    if a != [] && b != [] {
      assert a == [a[0]] + a[1..] && b == [b[0]] + b[1..];
      if Leq(cmp, a[0], b[0]) {
        MergePermutes(cmp, a[1..], b);
      } else {
        MergePermutes(cmp, a, b[1..]);
      }
    }
  }

  lemma {:induction false} PassPermutes<T>(cmp: (T, T) -> int, k: nat, s: seq<T>)
    requires 0 < k
    ensures multiset(Pass(cmp, k, s)) == multiset(s)
    decreases |s|
  {
    if s != [] {
      var mid, end := Min(k, |s|), Min(2 * k, |s|);
      MergePermutes(cmp, s[..mid], s[mid..end]);
      PassPermutes(cmp, k, s[end..]);
      assert Pass(cmp, k, s) == Merge(cmp, s[..mid], s[mid..end]) + Pass(cmp, k, s[end..]);
      hide *;
      CutElements(s, mid, end);
    }
  }

  lemma CutElements<T>(s: seq<T>, mid: nat, end: nat)
    requires mid <= end <= |s|
    ensures multiset(s) == multiset(s[..mid]) + multiset(s[mid..end]) + multiset(s[end..])
  {
    assert s == s[..mid] + s[mid..end] + s[end..];
  }

  lemma {:induction false} PassesPermute<T>(cmp: (T, T) -> int, k: nat, s: seq<T>)
    requires 0 < k
    ensures multiset(Passes(cmp, k, s)) == multiset(s)
    decreases |s| - k
  {
    PassPermutes(cmp, k, s);
    if |s| > 2 * k {
      PassesPermute(cmp, 2 * k, Pass(cmp, k, s));
    }
  }

  /** The sort keeps the elements, whatever the comparison says. */
  lemma MergeSortPermutes<T>(cmp: (T, T) -> int, s: seq<T>)
    ensures multiset(MergeSort(cmp, s)) == multiset(s)
  {
    PassesPermute(cmp, 1, s);
  }

  // ----- insertion: order and stability -----

  lemma {:induction false} InsertPermutes<T>(cmp: (T, T) -> int, x: T, s: seq<T>)
    ensures multiset(Insert(cmp, x, s)) == multiset(s) + multiset{x}
  {
    if s != [] && !Leq(cmp, x, s[0]) {
      var r := Insert(cmp, x, s[1..]);
      InsertPermutes(cmp, x, s[1..]);
      assert Insert(cmp, x, s) == [s[0]] + r;
      hide *;
      assert s == [s[0]] + s[1..];
      assert multiset([s[0]] + r) == multiset{s[0]} + multiset(r);
    }
  }

  lemma {:induction false} InsertAllPermutes<T>(cmp: (T, T) -> int, s: seq<T>, acc: seq<T>)
    ensures multiset(InsertAll(cmp, s, acc)) == multiset(s) + multiset(acc)
  {
    if s != [] {
      InsertAllPermutes(cmp, s[1..], acc);
      InsertPermutes(cmp, s[0], InsertAll(cmp, s[1..], acc));
      assert s == [s[0]] + s[1..];
    }
  }

  lemma {:induction false} InsertElements<T>(cmp: (T, T) -> int, x: T, s: seq<T>)
    ensures forall y :: y in Insert(cmp, x, s) <==> y == x || y in s
  {
    if s != [] && !Leq(cmp, x, s[0]) {
      InsertElements(cmp, x, s[1..]);
    }
  }

  lemma {:induction false} InsertSorted<T>(cmp: (T, T) -> int, x: T, s: seq<T>, u: set<T>)
    requires Preorder(cmp, u) && Within(s, u) && x in u && Sorted(cmp, s)
    ensures Sorted(cmp, Insert(cmp, x, s)) && Within(Insert(cmp, x, s), u)
  {
    InsertElements(cmp, x, s);
    if s == [] {
    } else if Leq(cmp, x, s[0]) {
      forall j | 0 < j < |s| + 1 ensures Leq(cmp, x, ([x] + s)[j]) {
        assert s[0] in s && s[j - 1] in s;
      }
    } else {
      InsertSorted(cmp, x, s[1..], u);
      var r := Insert(cmp, x, s[1..]);
      InsertElements(cmp, x, s[1..]);
      forall j | 0 <= j < |r| ensures Leq(cmp, s[0], r[j]) {
        assert r[j] in r && s[0] in s;
      }
    }
  }

  lemma {:induction false} InsertStable<T>(cmp: (T, T) -> int, y: T, x: T, s: seq<T>, u: set<T>)
    requires Preorder(cmp, u) && Within(s, u) && x in u && y in u
    ensures Class(cmp, y, Insert(cmp, x, s)) == Class(cmp, y, [x] + s)
  {
    assert ([x] + s)[1..] == s;
    if s != [] && !Leq(cmp, x, s[0]) {
      assert s[0] in s;
      InsertStable(cmp, y, x, s[1..], u);
      assert ([x] + s[1..])[1..] == s[1..];
      assert ([s[0]] + Insert(cmp, x, s[1..]))[1..] == Insert(cmp, x, s[1..]);
    }
  }

  lemma {:induction false} InsertionSortCorrect<T>(cmp: (T, T) -> int, s: seq<T>, u: set<T>)
    requires Preorder(cmp, u) && Within(s, u)
    ensures Sorted(cmp, InsertionSort(cmp, s)) && Within(InsertionSort(cmp, s), u)
    ensures forall y | y in u :: Class(cmp, y, InsertionSort(cmp, s)) == Class(cmp, y, s)
  {
    if s != [] {
      InsertionSortCorrect(cmp, s[1..], u);
      var r := InsertionSort(cmp, s[1..]);
      assert s[0] in s;
      InsertSorted(cmp, s[0], r, u);
      forall y | y in u ensures Class(cmp, y, Insert(cmp, s[0], r)) == Class(cmp, y, s) {
        InsertStable(cmp, y, s[0], r, u);
        assert ([s[0]] + r)[1..] == r;
      }
    }
  }

  // ----- merging sorted runs is inserting the left one into the right one -----

  /** An element that every element of `a` must follow stays in front. */
  lemma {:induction false} InsertAllBehind<T>(cmp: (T, T) -> int, a: seq<T>, x: T, b: seq<T>)
    requires forall y | y in a :: !Leq(cmp, y, x)
    ensures InsertAll(cmp, a, [x] + b) == [x] + InsertAll(cmp, a, b)
  {
    if a != [] {
      InsertAllBehind(cmp, a[1..], x, b);
      assert a[0] in a;
      assert ([x] + InsertAll(cmp, a[1..], b))[1..] == InsertAll(cmp, a[1..], b);
    }
  }

  lemma InsertInFront<T>(cmp: (T, T) -> int, x: T, s: seq<T>)
    requires s == [] || Leq(cmp, x, s[0])
    ensures Insert(cmp, x, s) == [x] + s
  {
  }

  lemma FirstBeforeAll<T>(cmp: (T, T) -> int, a: seq<T>, x: T, u: set<T>)
    requires Preorder(cmp, u) && Within(a, u) && x in u
    requires Sorted(cmp, a) && a != [] && !Leq(cmp, a[0], x)
    ensures forall y | y in a :: !Leq(cmp, y, x)
  {
    forall y | y in a ensures !Leq(cmp, y, x) {
      var i :| 0 <= i < |a| && a[i] == y;
      assert a[0] in a;
      assert i == 0 || Leq(cmp, a[0], a[i]);
    }
  }

  lemma MergeHead<T>(cmp: (T, T) -> int, x: T, a: seq<T>, b: seq<T>)
    requires a == [] || Leq(cmp, x, a[0])
    requires b == [] || Leq(cmp, x, b[0])
    ensures Merge(cmp, a, b) == [] || Leq(cmp, x, Merge(cmp, a, b)[0])
  {
  }

  lemma {:induction false} MergeIsInsertAll<T>(cmp: (T, T) -> int, a: seq<T>, b: seq<T>, u: set<T>)
    requires Preorder(cmp, u) && Within(a, u) && Within(b, u)
    requires Sorted(cmp, a) && Sorted(cmp, b)
    ensures Merge(cmp, a, b) == InsertAll(cmp, a, b)
    decreases |a| + |b|
  {
    if a == [] {
    } else if b == [] || Leq(cmp, a[0], b[0]) {
      var rest := Merge(cmp, a[1..], b);
      assert rest == InsertAll(cmp, a[1..], b) by { MergeIsInsertAll(cmp, a[1..], b, u); }
      assert Insert(cmp, a[0], rest) == [a[0]] + rest by {
        assert |a| > 1 ==> Leq(cmp, a[0], a[1]);
        MergeHead(cmp, a[0], a[1..], b);
        InsertInFront(cmp, a[0], rest);
      }
      if b == [] {
        assert rest == a[1..];
        assert a == [a[0]] + a[1..];
      }
    } else {
      assert Merge(cmp, a, b[1..]) == InsertAll(cmp, a, b[1..]) by { MergeIsInsertAll(cmp, a, b[1..], u); }
      assert InsertAll(cmp, a, [b[0]] + b[1..]) == [b[0]] + InsertAll(cmp, a, b[1..]) by {
        assert b[0] in b;
        FirstBeforeAll(cmp, a, b[0], u);
        InsertAllBehind(cmp, a, b[0], b[1..]);
      }
      assert b == [b[0]] + b[1..];
    }
  }

  // ----- the merge sort computes insertion sort -----

  lemma {:induction false} InsertCommutes<T>(cmp: (T, T) -> int, x: T, y: T, s: seq<T>, u: set<T>)
    requires Preorder(cmp, u) && Within(s, u) && x in u && y in u
    requires !Leq(cmp, y, x)
    ensures Insert(cmp, x, Insert(cmp, y, s)) == Insert(cmp, y, Insert(cmp, x, s))
  {
    if s == [] {
      assert [x, y][1..] == [y] && [x][1..] == [];
    } else {
      assert s[0] in s;
      assert s == [s[0]] + s[1..];
      if Leq(cmp, y, s[0]) {
        assert ([x] + s)[1..] == s;
      } else if Leq(cmp, x, s[0]) {
        assert ([x] + s)[1..] == s;
      } else {
        InsertCommutes(cmp, x, y, s[1..], u);
        assert Insert(cmp, y, s)[1..] == Insert(cmp, y, s[1..]);
        assert Insert(cmp, x, s)[1..] == Insert(cmp, x, s[1..]);
      }
    }
  }

  lemma InsertAllElements<T>(cmp: (T, T) -> int, s: seq<T>, acc: seq<T>, u: set<T>)
    requires Within(s, u) && Within(acc, u)
    ensures Within(InsertAll(cmp, s, acc), u)
  {
    var r := InsertAll(cmp, s, acc);
    InsertAllPermutes(cmp, s, acc);
    forall x | x in r ensures x in u {
      assert x in multiset(r);
    }
  }

  lemma {:induction false} InsertAllOfInsert<T>(cmp: (T, T) -> int, x: T, s: seq<T>, acc: seq<T>, u: set<T>)
    requires Preorder(cmp, u) && Within(s, u) && Within(acc, u) && x in u
    ensures InsertAll(cmp, Insert(cmp, x, s), acc) == Insert(cmp, x, InsertAll(cmp, s, acc))
  {
    if s == [] {
      assert [x][1..] == [];
    } else if Leq(cmp, x, s[0]) {
      assert ([x] + s)[1..] == s;
    } else {
      InsertAllOfInsert(cmp, x, s[1..], acc, u);
      InsertAllElements(cmp, s[1..], acc, u);
      assert s[0] in s;
      InsertCommutes(cmp, s[0], x, InsertAll(cmp, s[1..], acc), u);
      assert Insert(cmp, x, s)[1..] == Insert(cmp, x, s[1..]);
    }
  }

  lemma {:induction false} InsertAllSortedFirst<T>(cmp: (T, T) -> int, s: seq<T>, acc: seq<T>, u: set<T>)
    requires Preorder(cmp, u) && Within(s, u) && Within(acc, u)
    ensures InsertAll(cmp, InsertionSort(cmp, s), acc) == InsertAll(cmp, s, acc)
  {
    if s != [] {
      InsertAllSortedFirst(cmp, s[1..], acc, u);
      InsertAllElements(cmp, s[1..], [], u);
      assert s[0] in s;
      InsertAllOfInsert(cmp, s[0], InsertionSort(cmp, s[1..]), acc, u);
    }
  }

  lemma {:induction false} InsertAllAppend<T>(cmp: (T, T) -> int, a: seq<T>, b: seq<T>, acc: seq<T>)
    ensures InsertAll(cmp, a + b, acc) == InsertAll(cmp, a, InsertAll(cmp, b, acc))
  {
    if a == [] {
      assert a + b == b;
    } else {
      assert (a + b)[1..] == a[1..] + b;
      InsertAllAppend(cmp, a[1..], b, acc);
    }
  }

  /** Merging two insertion-sorted halves is insertion-sorting the whole. */
  lemma MergeSortedHalves<T>(cmp: (T, T) -> int, a: seq<T>, b: seq<T>, u: set<T>)
    requires Preorder(cmp, u) && Within(a, u) && Within(b, u)
    ensures Merge(cmp, InsertionSort(cmp, a), InsertionSort(cmp, b)) == InsertionSort(cmp, a + b)
  {
    InsertionSortCorrect(cmp, a, u);
    InsertionSortCorrect(cmp, b, u);
    MergeIsInsertAll(cmp, InsertionSort(cmp, a), InsertionSort(cmp, b), u);
    InsertAllSortedFirst(cmp, a, InsertionSort(cmp, b), u);
    InsertAllAppend(cmp, a, b, []);
  }

  /** `s` cut into blocks of `k`, each block insertion-sorted: the state between passes. */
  ghost function Blocks<T>(cmp: (T, T) -> int, k: nat, s: seq<T>): (r: seq<T>)
    requires 0 < k
    ensures |r| == |s|
  {
    if |s| <= k then InsertionSort(cmp, s)
    else InsertionSort(cmp, s[..k]) + Blocks(cmp, k, s[k..])
  }

  lemma {:induction false} BlocksOfOne<T>(cmp: (T, T) -> int, s: seq<T>)
    ensures Blocks(cmp, 1, s) == s
  {
    if |s| == 1 {
      assert s[1..] == [];
      assert s == [s[0]];
    } else if |s| > 1 {
      BlocksOfOne(cmp, s[1..]);
      assert s[..1][1..] == [];
      assert s == [s[0]] + s[1..];
    }
  }

  /** `s` falls into `a`, `b` and `rest` as the pass at run length `k` cuts it. */
  ghost predicate CutAt<T>(k: nat, a: seq<T>, b: seq<T>, rest: seq<T>) {
    && 0 < |a| <= k
    && |b| <= k
    && (|a| < k ==> b == [])
    && (|b| < k ==> rest == [])
  }

  lemma PassCut<T>(cmp: (T, T) -> int, k: nat, a: seq<T>, b: seq<T>, rest: seq<T>)
    requires CutAt(k, a, b, rest)
    ensures Pass(cmp, k, a + b + rest) == Merge(cmp, a, b) + Pass(cmp, k, rest)
  {
    var s := a + b + rest;
    var mid, end := Min(k, |s|), Min(2 * k, |s|);
    assert mid == |a| && end == |a| + |b|;
    assert s[..mid] == a && s[mid..end] == b && s[end..] == rest;
  }

  lemma BlocksStep<T>(cmp: (T, T) -> int, k: nat, a: seq<T>, rest: seq<T>)
    requires 0 < k && |a| <= k && (|a| < k ==> rest == [])
    ensures Blocks(cmp, k, a + rest) == InsertionSort(cmp, a) + Blocks(cmp, k, rest)
  {
    var s := a + rest;
    if rest == [] {
      assert s == a;
    } else {
      assert s[..k] == a && s[k..] == rest;
    }
  }

  /** A pass takes sorted blocks of `k` to sorted blocks of `2k`. */
  lemma {:induction false} PassDoublesBlocks<T>(cmp: (T, T) -> int, k: nat, s: seq<T>, u: set<T>)
    requires 0 < k && Preorder(cmp, u) && Within(s, u)
    ensures Pass(cmp, k, Blocks(cmp, k, s)) == Blocks(cmp, 2 * k, s)
    decreases |s|
  {
    if s != [] {
      var mid, end := Min(k, |s|), Min(2 * k, |s|);
      PassDoublesCut(cmp, k, s[..mid], s[mid..end], s[end..], u);
      assert s == s[..mid] + s[mid..end] + s[end..];
    }
  }

  lemma {:induction false} PassDoublesCut<T>(cmp: (T, T) -> int, k: nat, a: seq<T>, b: seq<T>, rest: seq<T>, u: set<T>)
    requires CutAt(k, a, b, rest)
    requires Preorder(cmp, u) && Within(a, u) && Within(b, u) && Within(rest, u)
    ensures Pass(cmp, k, Blocks(cmp, k, a + b + rest)) == Blocks(cmp, 2 * k, a + b + rest)
    decreases |a| + |b| + |rest|, 0
  {
    var x, y, z := InsertionSort(cmp, a), InsertionSort(cmp, b), Blocks(cmp, k, rest);
    assert Blocks(cmp, k, a + b + rest) == x + y + z by {
      assert a + b + rest == a + (b + rest);
      BlocksStep(cmp, k, a, b + rest);
      BlocksStep(cmp, k, b, rest);
    }
    PassCut(cmp, k, x, y, z);
    MergeSortedHalves(cmp, a, b, u);
    PassDoublesBlocks(cmp, k, rest, u);
    BlocksStep(cmp, 2 * k, a + b, rest);
  }

  lemma {:induction false} PassesFinishBlocks<T>(cmp: (T, T) -> int, k: nat, s: seq<T>, u: set<T>)
    requires 0 < k && Preorder(cmp, u) && Within(s, u)
    ensures Passes(cmp, k, Blocks(cmp, k, s)) == InsertionSort(cmp, s)
    decreases |s| - k
  {
    PassDoublesBlocks(cmp, k, s, u);
    if |s| > 2 * k {
      PassesFinishBlocks(cmp, 2 * k, s, u);
    }
  }

  /** The bottom-up merge sort yields exactly what inserting the elements in order,
      from the last to the first, yields. */
  lemma MergeSortIsInsertionSort<T>(cmp: (T, T) -> int, s: seq<T>, u: set<T>)
    requires Preorder(cmp, u) && Within(s, u)
    ensures MergeSort(cmp, s) == InsertionSort(cmp, s)
  {
    BlocksOfOne(cmp, s);
    PassesFinishBlocks(cmp, 1, s, u);
  }

  /** The sort's result is a sorted, stable permutation. */
  lemma MergeSortCorrect<T>(cmp: (T, T) -> int, s: seq<T>, u: set<T>)
    requires Preorder(cmp, u) && Within(s, u)
    ensures Sorted(cmp, MergeSort(cmp, s))
    ensures multiset(MergeSort(cmp, s)) == multiset(s)
    ensures Stable(cmp, s, MergeSort(cmp, s))
  {
    MergeSortIsInsertionSort(cmp, s, u);
    InsertionSortCorrect(cmp, s, u);
    MergeSortPermutes(cmp, s);
  }

  /** ... and the only one: sortedness, permutation and stability leave no freedom. */
  lemma {:induction false} StableSortUnique<T>(cmp: (T, T) -> int, s: seq<T>, t: seq<T>, u: set<T>)
    requires Preorder(cmp, u) && Within(s, u) && Within(t, u)
    requires Sorted(cmp, s) && Sorted(cmp, t)
    requires forall x | x in u :: Class(cmp, x, s) == Class(cmp, x, t)
    ensures s == t
  {
    assert s != [] ==> s[0] in s && Class(cmp, s[0], s) != [];
    assert t != [] ==> t[0] in t && Class(cmp, t[0], t) != [];
    if s != [] && t != [] {
      ClassMember(cmp, s[0], t, u);
      ClassMember(cmp, t[0], s, u);
      assert Equivalent(cmp, s[0], t[0]);
      assert s[0] == Class(cmp, s[0], s)[0] == Class(cmp, s[0], t)[0] == t[0];
      forall x | x in u ensures Class(cmp, x, s[1..]) == Class(cmp, x, t[1..]) {
        if Equivalent(cmp, x, s[0]) {
          assert Class(cmp, x, s[1..]) == Class(cmp, x, s)[1..];
          assert Class(cmp, x, t[1..]) == Class(cmp, x, t)[1..];
        }
      }
      StableSortUnique(cmp, s[1..], t[1..], u);
      assert s == [s[0]] + s[1..] && t == [t[0]] + t[1..];
    }
  }

  /** A sorted list with an element equal to `x` starts with one no larger than `x`. */
  lemma {:induction false} ClassMember<T>(cmp: (T, T) -> int, x: T, s: seq<T>, u: set<T>)
    requires Preorder(cmp, u) && Within(s, u) && x in u && Sorted(cmp, s)
    requires Class(cmp, x, s) != []
    ensures s != [] && Leq(cmp, s[0], x)
  {
    if s != [] && !Equivalent(cmp, x, s[0]) {
      ClassMember(cmp, x, s[1..], u);
      assert s[0] in s && s[1] in s && Leq(cmp, s[0], s[1]);
    }
  }
}
