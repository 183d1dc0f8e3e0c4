/** Orders used to sort map contents, and why sorting hides the order in which a map is walked. */
module Order {

  ghost predicate StrictTotalOrder<T(!new)>(lt: (T, T) -> bool) {
    && (forall a :: !lt(a, a))
    && (forall a, b :: a != b ==> lt(a, b) || lt(b, a))
    && (forall a, b, c :: lt(a, b) && lt(b, c) ==> lt(a, c))
  }

  ghost predicate Sorted<T>(lt: (T, T) -> bool, xs: seq<T>) {
    forall i, j :: 0 <= i < j < |xs| ==> lt(xs[i], xs[j])
  }

  ghost predicate Distinct<T>(xs: seq<T>) {
    forall i, j :: 0 <= i < j < |xs| ==> xs[i] != xs[j]
  }

  /** `xs` lists the elements of `s`, each once, in increasing order. */
  ghost predicate Enumerates<T(!new)>(lt: (T, T) -> bool, xs: seq<T>, s: set<T>) {
    Sorted(lt, xs) && forall x :: x in xs <==> x in s
  }

  /** Go compares strings byte by byte; a proper prefix comes first. */
  predicate Less(a: string, b: string) {
    if b == "" then false
    else if a == "" then true
    else a[0] < b[0] || (a[0] == b[0] && Less(a[1..], b[1..]))
  }

  lemma {:induction false} LessConnected(a: string, b: string)
    requires a != b
    ensures Less(a, b) || Less(b, a)
  {
    if a == "" || b == "" || a[0] != b[0] {
    } else {
      assert a == [a[0]] + a[1..] && b == [b[0]] + b[1..];
      LessConnected(a[1..], b[1..]);
    }
  }

  lemma {:induction false} LessTransitive(a: string, b: string, c: string)
    requires Less(a, b) && Less(b, c)
    ensures Less(a, c)
  {
    if a == "" || a[0] != b[0] || b[0] != c[0] {
    } else {
      LessTransitive(a[1..], b[1..], c[1..]);
    }
  }

  lemma {:induction false} LessIrreflexive(a: string)
    ensures !Less(a, a)
  {
    if a == "" {
    } else {
      LessIrreflexive(a[1..]);
    }
  }

  /** Bytewise: at the first difference the smaller byte decides, and a proper prefix comes first. */
  lemma {:induction false} LessIff(a: string, b: string)
    ensures Less(a, b) <==> exists k: nat :: FirstDifference(a, b, k)
  {
    if a == "" || b == "" {
      if b != "" { assert FirstDifference(a, b, 0); }
    } else if a[0] != b[0] {
      if a[0] < b[0] { assert FirstDifference(a, b, 0); }
    } else {
      var s, t := a[1..], b[1..];
      LessIff(s, t);
      forall k: nat ensures FirstDifference(s, t, k) <==> FirstDifference(a, b, k + 1) { DifferenceShift(a, b, k); }
      if k: nat :| FirstDifference(a, b, k) { assert k > 0 && FirstDifference(s, t, k - 1); }
      if k: nat :| FirstDifference(s, t, k) { assert FirstDifference(a, b, k + 1); }
    }
  }

  /** The strings agree on `k` bytes, then the first one ends or has the smaller byte. */
  ghost predicate FirstDifference(a: string, b: string, k: nat) {
    && k <= |a| && k < |b| && (forall i :: 0 <= i < k ==> a[i] == b[i])
    && (k == |a| || a[k] < b[k])
  }

  lemma DifferenceShift(a: string, b: string, k: nat)
    requires a != "" && b != "" && a[0] == b[0]
    ensures FirstDifference(a[1..], b[1..], k) <==> FirstDifference(a, b, k + 1)
  {
    if FirstDifference(a[1..], b[1..], k) {
      forall i | 0 <= i < k + 1 ensures a[i] == b[i] { if i > 0 { assert a[1..][i - 1] == b[1..][i - 1]; } }
    }
    if FirstDifference(a, b, k + 1) {
      forall i | 0 <= i < k ensures a[1..][i] == b[1..][i] { assert a[i + 1] == b[i + 1]; }
    }
  }

  lemma LessIsStrictTotal()
    ensures StrictTotalOrder(Less)
  {
    forall a: string ensures !Less(a, a) { LessIrreflexive(a); }
    forall a: string, b: string | a != b ensures Less(a, b) || Less(b, a) { LessConnected(a, b); }
    forall a: string, b: string, c: string | Less(a, b) && Less(b, c) ensures Less(a, c) {
      LessTransitive(a, b, c);
    }
  }

  function Insert<T>(lt: (T, T) -> bool, xs: seq<T>, x: T): (r: seq<T>) {
    if xs == [] then [x]
    else if lt(x, xs[0]) then [x] + xs
    else [xs[0]] + Insert(lt, xs[1..], x)
  }

  lemma {:induction false} InsertMembers<T>(lt: (T, T) -> bool, xs: seq<T>, x: T, y: T)
    ensures y in Insert(lt, xs, x) <==> y == x || y in xs
  {
    if xs == [] || lt(x, xs[0]) {
    } else {
      assert xs == [xs[0]] + xs[1..];
      InsertMembers(lt, xs[1..], x, y);
    }
  }

  lemma {:induction false} InsertSorted<T(!new)>(lt: (T, T) -> bool, xs: seq<T>, x: T)
    requires StrictTotalOrder(lt) && Sorted(lt, xs) && x !in xs
    ensures Sorted(lt, Insert(lt, xs, x))
  {
    if xs == [] || lt(x, xs[0]) {
    } else {
      InsertSorted(lt, xs[1..], x);
      var rest := Insert(lt, xs[1..], x);
      forall j | 0 <= j < |rest| ensures lt(xs[0], rest[j]) {
        InsertMembers(lt, xs[1..], x, rest[j]);
      }
    }
  }

  /** The sorted list of a set. `SortedUnique` shows that no other list qualifies. */
  ghost function SortSet<T(!new)>(lt: (T, T) -> bool, s: set<T>): (r: seq<T>)
    requires StrictTotalOrder(lt)
    ensures Enumerates(lt, r, s)
  {
    if s == {} then [] else
      var x :| x in s;
      var rest := SortSet(lt, s - {x});
      InsertSorted(lt, rest, x);
      assert forall y :: y in Insert(lt, rest, x) <==> y in s by {
        forall y: T ensures y in Insert(lt, rest, x) <==> y in s { InsertMembers(lt, rest, x, y); }
      }
      Insert(lt, rest, x)
  }

  /** A set has one sorted list, however its elements were collected. */
  lemma {:induction false} SortedUnique<T(!new)>(lt: (T, T) -> bool, xs: seq<T>, ys: seq<T>, s: set<T>)
    requires StrictTotalOrder(lt) && Enumerates(lt, xs, s) && Enumerates(lt, ys, s)
    ensures xs == ys
    decreases |xs|
  {
    assert xs != [] ==> xs[0] in s;
    assert ys != [] ==> ys[0] in s;
    if xs == [] {
    } else {
      assert xs[0] == ys[0];
      SortedTail(lt, xs, s);
      SortedTail(lt, ys, s);
      SortedUnique(lt, xs[1..], ys[1..], s - {xs[0]});
      assert xs == [xs[0]] + xs[1..] && ys == [ys[0]] + ys[1..];
    }
  }

  lemma SortedTail<T(!new)>(lt: (T, T) -> bool, xs: seq<T>, s: set<T>)
    requires StrictTotalOrder(lt) && Enumerates(lt, xs, s) && xs != []
    ensures Enumerates(lt, xs[1..], s - {xs[0]})
  {
    assert xs == [xs[0]] + xs[1..];
  }

  /** The library sort the source calls, on distinct elements. */
  method Sort<T(!new)>(lt: (T, T) -> bool, xs: seq<T>) returns (ys: seq<T>)
    requires StrictTotalOrder(lt) && Distinct(xs)
    ensures Enumerates(lt, ys, set x | x in xs)
  {
    ys := [];
    for i := 0 to |xs|
      invariant Sorted(lt, ys)
      invariant forall y :: y in ys <==> y in xs[..i]
    {
      assert xs[..i + 1] == xs[..i] + [xs[i]];
      InsertSorted(lt, ys, xs[i]);
      forall y: T ensures y in Insert(lt, ys, xs[i]) <==> y in xs[..i + 1] {
        InsertMembers(lt, ys, xs[i], y);
      }
      ys := Insert(lt, ys, xs[i]);
    }
    assert xs[..|xs|] == xs;
  }

  lemma SortedDistinct<T(!new)>(lt: (T, T) -> bool, xs: seq<T>)
    requires StrictTotalOrder(lt) && Sorted(lt, xs)
    ensures Distinct(xs)
  {
  }

  /** A list without repetitions is as long as the set of its elements. */
  lemma {:induction false} DistinctSize<T>(xs: seq<T>)
    requires Distinct(xs)
    ensures |set x | x in xs| == |xs|
  {
    if xs == [] {
    } else {
      DistinctSize(xs[1..]);
      var tail := set x | x in xs[1..];
      assert xs == [xs[0]] + xs[1..];
      assert (set x | x in xs) == tail + {xs[0]};
    }
  }
}
