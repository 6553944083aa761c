/**
 Orders and sorted sequences: what `BTreeSet` iteration and `Vec::sort` rely on.
 */
module Order {

  ghost predicate StrictTotalOrder<T(!new)>(less: (T, T) -> bool) {
    && (forall a :: !less(a, a))
    && (forall a, b, c :: less(a, b) && less(b, c) ==> less(a, c))
    && (forall a, b :: less(a, b) || a == b || less(b, a))
  }

  /** The order Rust derives for strings, vectors and path components from that of their parts. */
  predicate LexLess<T(==)>(less: (T, T) -> bool, a: seq<T>, b: seq<T>) {
    b != [] && (a == [] || less(a[0], b[0]) || (a[0] == b[0] && LexLess(less, a[1..], b[1..])))
  }

  predicate CharLess(a: char, b: char) {
    a < b
  }

  predicate StringLess(a: string, b: string) {
    LexLess(CharLess, a, b)
  }

  predicate PathLess(a: seq<string>, b: seq<string>) {
    LexLess(StringLess, a, b)
  }

  lemma {:induction false} LexTransitive<T(!new)>(less: (T, T) -> bool, a: seq<T>, b: seq<T>, c: seq<T>)
    requires StrictTotalOrder(less) && LexLess(less, a, b) && LexLess(less, b, c)
    ensures LexLess(less, a, c)
  {
    if a != [] && a[0] == b[0] && b[0] == c[0] {
      LexTransitive(less, a[1..], b[1..], c[1..]);
    }
  }

  lemma {:induction false} LexTrichotomy<T(!new)>(less: (T, T) -> bool, a: seq<T>, b: seq<T>)
    requires StrictTotalOrder(less)
    ensures !LexLess(less, a, a)
    ensures LexLess(less, a, b) || a == b || LexLess(less, b, a)
  {
    if a != [] {
      if b != [] && a[0] == b[0] {
        LexTrichotomy(less, a[1..], b[1..]);
        assert a == [a[0]] + a[1..] && b == [b[0]] + b[1..];
      } else {
        LexTrichotomy(less, a[1..], a[1..]);
      }
    }
  }

  lemma StringsAreOrdered()
    ensures StrictTotalOrder(StringLess)
  {
    assert StrictTotalOrder(CharLess);
    forall a, b ensures !StringLess(a, a) && (StringLess(a, b) || a == b || StringLess(b, a)) {
      LexTrichotomy(CharLess, a, b);
    }
    forall a, b, c | StringLess(a, b) && StringLess(b, c) ensures StringLess(a, c) {
      LexTransitive(CharLess, a, b, c);
    }
  }

  lemma PathsAreOrdered()
    ensures StrictTotalOrder(PathLess)
  {
    StringsAreOrdered();
    forall a, b ensures !PathLess(a, a) && (PathLess(a, b) || a == b || PathLess(b, a)) {
      LexTrichotomy(StringLess, a, b);
    }
    forall a, b, c | PathLess(a, b) && PathLess(b, c) ensures PathLess(a, c) {
      LexTransitive(StringLess, a, b, c);
    }
  }

  // ---------------------------------------------------------------- sorted sequences

  ghost predicate Ascending<T>(less: (T, T) -> bool, s: seq<T>) {
    forall i, j | 0 <= i < j < |s| :: less(s[i], s[j])
  }

  /** Inserts `x` into an ascending sequence, once: `BTreeSet::insert`. */
  function Insert<T(==)>(less: (T, T) -> bool, s: seq<T>, x: T): seq<T> {
    if s == [] then [x]
    else if s[0] == x then s
    else if less(x, s[0]) then [x] + s
    else [s[0]] + Insert(less, s[1..], x)
  }

  lemma {:induction false} InsertElements<T>(less: (T, T) -> bool, s: seq<T>, x: T)
    ensures forall y :: y in Insert(less, s, x) <==> y == x || y in s
  {
    if s != [] {
      InsertElements(less, s[1..], x);
      assert forall y :: y in s <==> y == s[0] || y in s[1..];
    }
  }

  lemma {:induction false} InsertAscends<T(!new)>(less: (T, T) -> bool, s: seq<T>, x: T)
    requires StrictTotalOrder(less) && Ascending(less, s)
    ensures Ascending(less, Insert(less, s, x))
  {
    if s != [] && s[0] != x && !less(x, s[0]) {
      var rest := Insert(less, s[1..], x);
      InsertAscends(less, s[1..], x);
      InsertElements(less, s[1..], x);
      assert forall y | y in rest :: y == x || y in s[1..];
      assert forall y | y in s[1..] :: less(s[0], y);
      assert forall k | 0 <= k < |rest| :: rest[k] in rest;
    }
  }

  /** The elements of `s` in ascending order, each once. */
  function Sort<T(==)>(less: (T, T) -> bool, s: seq<T>): seq<T> {
    if s == [] then [] else Insert(less, Sort(less, s[..|s| - 1]), s[|s| - 1])
  }

  lemma {:induction false} SortSorts<T(!new)>(less: (T, T) -> bool, s: seq<T>)
    requires StrictTotalOrder(less)
    ensures Ascending(less, Sort(less, s))
    ensures forall x :: x in Sort(less, s) <==> x in s
  {
    if s != [] {
      var rest, x := s[..|s| - 1], s[|s| - 1];
      SortSorts(less, rest);
      InsertAscends(less, Sort(less, rest), x);
      InsertElements(less, Sort(less, rest), x);
      assert s == rest + [x];
    }
  }

  lemma NonEmptyHasElement<T>(s: seq<T>)
    requires s != []
    ensures exists x :: x in s
  {
    assert s[0] in s;
  }

  /** Two ascending sequences with the same elements are the same sequence. */
  lemma {:induction false} AscendingIsUnique<T(!new)>(less: (T, T) -> bool, a: seq<T>, b: seq<T>)
    requires StrictTotalOrder(less) && Ascending(less, a) && Ascending(less, b)
    requires forall x :: x in a <==> x in b
    ensures a == b
  {
    if a == [] {
      if b != [] {
        NonEmptyHasElement(b);
      }
    } else {
      assert a[0] in b && b != [] && b[0] in a;
      assert a[0] == b[0];
      forall x ensures x in a[1..] <==> x in b[1..] {
        assert x in a <==> x == a[0] || x in a[1..];
        assert x in b <==> x == b[0] || x in b[1..];
        assert a[0] !in a[1..] && b[0] !in b[1..];
      }
      AscendingIsUnique(less, a[1..], b[1..]);
      assert a == [a[0]] + a[1..] && b == [b[0]] + b[1..];
    }
  }

  /** Hence sorting forgets everything about a sequence but its elements. */
  lemma SortDependsOnElements<T(!new)>(less: (T, T) -> bool, a: seq<T>, b: seq<T>)
    requires StrictTotalOrder(less)
    ensures Sort(less, a) == Sort(less, b) <==> forall x :: x in a <==> x in b
  {
    SortSorts(less, a);
    SortSorts(less, b);
    if forall x :: x in a <==> x in b {
      AscendingIsUnique(less, Sort(less, a), Sort(less, b));
    }
  }

  // ---------------------------------------------------------------- flat map

  function FlatMap<S, T>(f: S -> seq<T>, s: seq<S>): seq<T> {
    if s == [] then [] else FlatMap(f, s[..|s| - 1]) + f(s[|s| - 1])
  }

  lemma FlatMapSnoc<S, T>(f: S -> seq<T>, s: seq<S>, k: nat)
    requires k < |s|
    ensures FlatMap(f, s[..k + 1]) == FlatMap(f, s[..k]) + f(s[k])
  {
    assert s[..k + 1][..k] == s[..k];
  }

  lemma {:induction false} FlatMapElements<S(!new), T(!new)>(f: S -> seq<T>, s: seq<S>)
    ensures forall y :: y in FlatMap(f, s) <==> exists x :: x in s && y in f(x)
    ensures FlatMap(f, s) == [] <==> forall x | x in s :: f(x) == []
  {
    if s != [] {
      var rest, last := s[..|s| - 1], s[|s| - 1];
      FlatMapElements(f, rest);
      assert s == rest + [last];
      assert forall x :: x in s <==> x in rest || x == last;
    }
  }

  lemma {:induction false} FlatMapAppend<S, T>(f: S -> seq<T>, a: seq<S>, b: seq<S>)
    ensures FlatMap(f, a + b) == FlatMap(f, a) + FlatMap(f, b)
  {
    if b == [] {
      assert a + b == a;
    } else {
      var rest, last := b[..|b| - 1], b[|b| - 1];
      FlatMapAppend(f, a, rest);
      assert (a + b)[..|a + b| - 1] == a + rest;
    }
  }

  lemma FlatMapOne<S, T>(f: S -> seq<T>, x: S)
    ensures FlatMap(f, [x]) == f(x)
  {
    assert [x][..0] == [];
  }
}
