/** The orders the program sorts by, and sorting itself. `Vec<String>::sort`
    orders names by `str`'s order (code point by code point, which is the
    byte order of UTF-8); `Vec<PathBuf>::sort` orders paths component by
    component (Rust's `Ord for Path`), not as one string. */
module Order {

  /** `str`'s order: lexicographic on characters, a proper prefix first. */
  predicate StrLt(a: string, b: string)
    decreases |a|
  {
    if a == [] then b != []
    else if b == [] then false
    else a[0] < b[0] || (a[0] == b[0] && StrLt(a[1..], b[1..]))
  }

  predicate StrLe(a: string, b: string) {
    a == b || StrLt(a, b)
  }

  /** `Path`'s order: lexicographic on components, each compared as a `str`. */
  predicate PathLt(a: seq<string>, b: seq<string>)
    decreases |a|
  {
    if a == [] then b != []
    else if b == [] then false
    else StrLt(a[0], b[0]) || (a[0] == b[0] && PathLt(a[1..], b[1..]))
  }

  predicate PathLe(a: seq<string>, b: seq<string>) {
    a == b || PathLt(a, b)
  }

  /** A relation that is a total order: comparable, antisymmetric, transitive. */
  ghost predicate TotalOrder<T(!new)>(le: (T, T) -> bool) {
    (forall a, b :: le(a, b) || le(b, a)) &&
    (forall a, b :: le(a, b) && le(b, a) ==> a == b) &&
    (forall a, b, c :: le(a, b) && le(b, c) ==> le(a, c))
  }

  lemma {:induction false} StrLtIrreflexive(a: string)
    ensures !StrLt(a, a)
    decreases |a|
  {
    if a != [] {
      StrLtIrreflexive(a[1..]);
    }
  }

  lemma {:induction false} StrLtAsymmetric(a: string, b: string)
    ensures !(StrLt(a, b) && StrLt(b, a))
    decreases |a|
  {
    if a != [] && b != [] {
      StrLtAsymmetric(a[1..], b[1..]);
    }
  }

  lemma {:induction false} StrLtTotal(a: string, b: string)
    ensures a == b || StrLt(a, b) || StrLt(b, a)
    decreases |a|
  {
    if a != [] && b != [] {
      StrLtTotal(a[1..], b[1..]);
      if a[0] == b[0] && a[1..] == b[1..] {
        assert a == [a[0]] + a[1..] && b == [b[0]] + b[1..];
      }
    }
  }

  lemma {:induction false} StrLtTransitive(a: string, b: string, c: string)
    requires StrLt(a, b) && StrLt(b, c)
    ensures StrLt(a, c)
    decreases |a|
  {
    if a != [] && a[0] == b[0] && b[0] == c[0] {
      StrLtTransitive(a[1..], b[1..], c[1..]);
    }
  }

  /** `str`'s order is a total order. */
  lemma StrLeTotalOrder()
    ensures TotalOrder(StrLe)
  {
    forall a: string, b: string ensures StrLe(a, b) || StrLe(b, a) {
      StrLtTotal(a, b);
    }
    forall a: string, b: string | StrLe(a, b) && StrLe(b, a) ensures a == b {
      StrLtAsymmetric(a, b);
    }
    forall a: string, b: string, c: string | StrLe(a, b) && StrLe(b, c) ensures StrLe(a, c) {
      if a != b && b != c {
        StrLtTransitive(a, b, c);
      }
    }
  }

  lemma {:induction false} PathLtAsymmetric(a: seq<string>, b: seq<string>)
    ensures !(PathLt(a, b) && PathLt(b, a))
    decreases |a|
  {
    if a != [] && b != [] {
      StrLtAsymmetric(a[0], b[0]);
      if a[0] == b[0] {
        StrLtIrreflexive(a[0]);
      }
      PathLtAsymmetric(a[1..], b[1..]);
    }
  }

  lemma {:induction false} PathLtTotal(a: seq<string>, b: seq<string>)
    ensures a == b || PathLt(a, b) || PathLt(b, a)
    decreases |a|
  {
    if a != [] && b != [] {
      StrLtTotal(a[0], b[0]);
      PathLtTotal(a[1..], b[1..]);
      if a[0] == b[0] && a[1..] == b[1..] {
        assert a == [a[0]] + a[1..] && b == [b[0]] + b[1..];
      }
    }
  }

  lemma {:induction false} PathLtTransitive(a: seq<string>, b: seq<string>, c: seq<string>)
    requires PathLt(a, b) && PathLt(b, c)
    ensures PathLt(a, c)
    decreases |a|
  {
    if a != [] {
      if StrLt(a[0], b[0]) && StrLt(b[0], c[0]) {
        StrLtTransitive(a[0], b[0], c[0]);
      } else if a[0] == b[0] && b[0] == c[0] {
        PathLtTransitive(a[1..], b[1..], c[1..]);
      }
    }
  }

  /** `Path`'s order is a total order. */
  lemma PathLeTotalOrder()
    ensures TotalOrder(PathLe)
  {
    forall a: seq<string>, b: seq<string> ensures PathLe(a, b) || PathLe(b, a) {
      PathLtTotal(a, b);
    }
    forall a: seq<string>, b: seq<string> | PathLe(a, b) && PathLe(b, a) ensures a == b {
      PathLtAsymmetric(a, b);
    }
    forall a: seq<string>, b: seq<string>, c: seq<string> | PathLe(a, b) && PathLe(b, c)
      ensures PathLe(a, c)
    {
      if a != b && b != c {
        PathLtTransitive(a, b, c);
      }
    }
  }

  /** Sorting paths by components differs from sorting their printed text:
      `a/b` comes before `a-b` as a path although '-' sorts before '/'. */
  lemma ComponentOrderIsNotTextOrder()
    ensures PathLt(["a", "b"], ["a-b"])
    ensures StrLt("a-b", "a/b")
  {
    assert StrLt("", "-b");
    assert ["a-b"][0][1..] == "-b";
    assert StrLt("a", "a-b");
    assert "a-b"[1..] == "-b" && "a/b"[1..] == "/b";
    assert StrLt("-b", "/b");
  }

  predicate SortedBy<T>(s: seq<T>, le: (T, T) -> bool) {
    forall i, j :: 0 <= i < j < |s| ==> le(s[i], s[j])
  }

  /** Insertion into a sorted list: before the first element it does not follow. */
  function Insert<T>(x: T, s: seq<T>, le: (T, T) -> bool): (r: seq<T>)
    ensures multiset(r) == multiset(s) + multiset{x}
    decreases |s|
  {
    if s == [] then [x]
    else if le(x, s[0]) then [x] + s
    else
      assert s == [s[0]] + s[1..];
      [s[0]] + Insert(x, s[1..], le)
  }

  /** The sort of the standard library, as an insertion sort: for a total order
      every sort returns the same list (see `SortedIsUnique`). */
  function Sort<T>(s: seq<T>, le: (T, T) -> bool): (r: seq<T>)
    ensures multiset(r) == multiset(s)
    decreases |s|
  {
    if s == [] then []
    else
      assert s == [s[0]] + s[1..];
      Insert(s[0], Sort(s[1..], le), le)
  }

  /** Inserting into a sorted list keeps it sorted. */
  lemma {:induction false} InsertSorted<T(!new)>(x: T, s: seq<T>, le: (T, T) -> bool)
    requires TotalOrder(le) && SortedBy(s, le)
    ensures SortedBy(Insert(x, s, le), le)
    decreases |s|
  {
    if s != [] && !le(x, s[0]) {
      InsertSorted(x, s[1..], le);
      var r := Insert(x, s[1..], le);
      forall k | 0 <= k < |r| ensures le(s[0], r[k]) {
        assert r[k] in multiset(r);
        assert r[k] in multiset(s[1..]) + multiset{x};
        if r[k] != x {
          assert r[k] in s[1..];
        }
      }
    }
  }

  /** `Sort` yields a sorted permutation of its input. */
  lemma {:induction false} SortSorted<T(!new)>(s: seq<T>, le: (T, T) -> bool)
    requires TotalOrder(le)
    ensures SortedBy(Sort(s, le), le)
    ensures multiset(Sort(s, le)) == multiset(s)
    decreases |s|
  {
    if s != [] {
      SortSorted(s[1..], le);
      InsertSorted(s[0], Sort(s[1..], le), le);
    }
  }

  /** Under a total order a sorted list is determined by its elements. */
  lemma {:induction false} SortedIsUnique<T(!new)>(a: seq<T>, b: seq<T>, le: (T, T) -> bool)
    requires TotalOrder(le)
    requires SortedBy(a, le) && SortedBy(b, le)
    requires multiset(a) == multiset(b)
    ensures a == b
    decreases |a|
  {
    if a != [] {
      SameHead(a, b, le);
      SortedIsUnique(a[1..], b[1..], le);
      assert a == [a[0]] + a[1..] && b == [b[0]] + b[1..];
    } else {
      assert |multiset(b)| == 0;
    }
  }

  /** Two nonempty sorted lists with the same elements start alike and
      continue with the same elements. */
  lemma SameHead<T(!new)>(a: seq<T>, b: seq<T>, le: (T, T) -> bool)
    requires TotalOrder(le)
    requires SortedBy(a, le) && SortedBy(b, le)
    requires multiset(a) == multiset(b) && a != []
    ensures b != [] && a[0] == b[0] && multiset(a[1..]) == multiset(b[1..])
  {
    assert a[0] in multiset(b);
    assert b[0] in multiset(a);
    assert a[0] in b;
    assert b[0] in a;
    assert le(b[0], a[0]);
    assert le(a[0], b[0]);
    assert a[0] == b[0];
    assert a == [a[0]] + a[1..] && b == [b[0]] + b[1..];
    assert multiset(a[1..]) == multiset(a) - multiset{a[0]};
    assert multiset(b[1..]) == multiset(b) - multiset{a[0]};
  }

  /** The sorted result does not depend on the order the elements came in. */
  lemma SortIgnoresInputOrder<T(!new)>(a: seq<T>, b: seq<T>, le: (T, T) -> bool)
    requires TotalOrder(le)
    requires multiset(a) == multiset(b)
    ensures Sort(a, le) == Sort(b, le)
  {
    SortSorted(a, le);
    SortSorted(b, le);
    SortedIsUnique(Sort(a, le), Sort(b, le), le);
  }

  predicate Distinct<T(==)>(s: seq<T>) {
    forall i, j :: 0 <= i < j < |s| ==> s[i] != s[j]
  }

  /** Some duplicate-free enumeration of a finite set. */
  ghost function Enumerate<T(!new)>(S: set<T>): (r: seq<T>)
    ensures Distinct(r)
    ensures forall x :: x in r <==> x in S
    decreases |S|
  {
    if S == {} then []
    else
      var x :| x in S;
      [x] + Enumerate(S - {x})
  }

  /** A set of names in `str` order: what collecting and sorting them yields. */
  ghost function SortedNames(S: set<string>): seq<string> {
    Sort(Enumerate(S), StrLe)
  }

  /** A duplicate-free list holds each of its elements once. */
  lemma {:induction false} DistinctMultiset<T>(s: seq<T>)
    requires Distinct(s)
    ensures multiset(s) == multiset(set x | x in s)
    decreases |s|
  {
    if s != [] {
      var rest := set x | x in s[1..];
      DistinctMultiset(s[1..]);
      assert s[0] !in s[1..];
      assert s == [s[0]] + s[1..];
      assert (set x | x in s) == {s[0]} + rest;
      AddFresh(s[0], rest);
    }
  }

  /** Adding a new element to a set adds one occurrence to its multiset. */
  lemma AddFresh<T>(x: T, S: set<T>)
    requires x !in S
    ensures multiset({x} + S) == multiset{x} + multiset(S)
  {
  }

  /** Sorting any duplicate-free list of the names gives `SortedNames`. */
  lemma SortDistinctIsSortedNames(s: seq<string>, S: set<string>)
    requires Distinct(s)
    requires forall x :: x in s <==> x in S
    ensures Sort(s, StrLe) == SortedNames(S)
  {
    var e := Enumerate(S);
    DistinctMultiset(s);
    DistinctMultiset(e);
    assert (set x | x in s) == (set x | x in e);
    StrLeTotalOrder();
    SortIgnoresInputOrder(s, e, StrLe);
  }

  /** A list in which nothing occurs twice is duplicate-free. */
  lemma {:induction false} CountsAtMostOne<T>(s: seq<T>)
    requires forall x :: multiset(s)[x] <= 1
    ensures Distinct(s)
    decreases |s|
  {
    if s != [] {
      assert s == [s[0]] + s[1..];
      assert multiset(s) == multiset{s[0]} + multiset(s[1..]);
      forall x ensures multiset(s[1..])[x] <= 1 {
        assert multiset(s[1..])[x] <= multiset(s)[x];
      }
      CountsAtMostOne(s[1..]);
      assert multiset(s)[s[0]] <= 1;
      assert multiset(s[1..])[s[0]] == 0;
    }
  }

  /** `SortedNames` lists every member of the set once, in `str` order. */
  lemma SortedNamesSpec(S: set<string>)
    ensures SortedBy(SortedNames(S), StrLe)
    ensures Distinct(SortedNames(S))
    ensures forall x :: x in SortedNames(S) <==> x in S
  {
    var e := Enumerate(S);
    StrLeTotalOrder();
    SortSorted(e, StrLe);
    var r := SortedNames(S);
    DistinctMultiset(e);
    assert multiset(r) == multiset(set x | x in e);
    forall x ensures x in r <==> x in S {
      assert x in r <==> x in multiset(r);
    }
    CountsAtMostOne(r);
  }
}
