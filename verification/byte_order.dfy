/** The byte-wise order of strings, and sorting by it. */
module ByteOrder {
  import opened IpfsNode

  predicate Leq(a: Bytes, b: Bytes)
  {
    if a == [] then true
    else if b == [] then false
    else a[0] < b[0] || (a[0] == b[0] && Leq(a[1..], b[1..]))
  }

  lemma {:induction false} LeqTotal(a: Bytes, b: Bytes)
    ensures Leq(a, b) || Leq(b, a)
  {
    if a == [] || b == [] {
    } else {
      LeqTotal(a[1..], b[1..]);
    }
  }

  lemma {:induction false} LeqAntisymmetric(a: Bytes, b: Bytes)
    requires Leq(a, b) && Leq(b, a)
    ensures a == b
  {
    if a == [] || b == [] {
    } else {
      LeqAntisymmetric(a[1..], b[1..]);
      assert a == [a[0]] + a[1..] && b == [b[0]] + b[1..];
    }
  }

  lemma {:induction false} LeqTransitive(a: Bytes, b: Bytes, c: Bytes)
    requires Leq(a, b) && Leq(b, c)
    ensures Leq(a, c)
  {
    if a == [] || b == [] || c == [] {
    } else if a[0] == b[0] == c[0] {
      LeqTransitive(a[1..], b[1..], c[1..]);
    }
  }

  lemma {:induction false} LeqReflexive(a: Bytes)
    ensures Leq(a, a)
  {
    if a == [] {
    } else {
      LeqReflexive(a[1..]);
    }
  }

  ghost predicate Sorted(xs: seq<Bytes>)
  {
    forall i, j :: 0 <= i <= j < |xs| ==> Leq(xs[i], xs[j])
  }

  function Insert(x: Bytes, xs: seq<Bytes>): seq<Bytes>
  {
    if xs == [] || Leq(x, xs[0]) then [x] + xs else [xs[0]] + Insert(x, xs[1..])
  }

  function Sort(xs: seq<Bytes>): seq<Bytes>
  {
    if xs == [] then [] else Insert(xs[0], Sort(xs[1..]))
  }

  lemma {:induction false} InsertSorts(x: Bytes, xs: seq<Bytes>)
    requires Sorted(xs)
    ensures Sorted(Insert(x, xs)) && multiset(Insert(x, xs)) == multiset(xs) + multiset{x}
  {
    LeqReflexive(x);
    if xs == [] {
    } else if Leq(x, xs[0]) {
      forall j | 0 <= j < |xs| ensures Leq(x, xs[j]) {
        LeqTransitive(x, xs[0], xs[j]);
      }
    } else {
      LeqTotal(x, xs[0]);
      assert xs == [xs[0]] + xs[1..];
      InsertSorts(x, xs[1..]);
      var rest := Insert(x, xs[1..]);
      forall j | 0 <= j < |rest| ensures Leq(xs[0], rest[j]) {
        assert rest[j] in multiset(rest);
        assert rest[j] == x || rest[j] in xs[1..];
      }
      LeqReflexive(xs[0]);
    }
  }

  lemma {:induction false} SortSorts(xs: seq<Bytes>)
    ensures Sorted(Sort(xs)) && multiset(Sort(xs)) == multiset(xs)
  {
    if xs == [] {
    } else {
      SortSorts(xs[1..]);
      InsertSorts(xs[0], Sort(xs[1..]));
      assert xs == [xs[0]] + xs[1..];
    }
  }

  // ---------------------------------------------------------------------------------------------
  // Arrangements of one multiset.
  // ---------------------------------------------------------------------------------------------

  lemma MiddleOut<X>(a: seq<X>, x: X, b: seq<X>)
    ensures multiset(a + [x] + b) - multiset{x} == multiset(a + b)
  {
    assert multiset(a + [x] + b) == multiset(a) + multiset{x} + multiset(b);
    assert multiset(a + b) == multiset(a) + multiset(b);
  }

  lemma HeadOut<X>(xs: seq<X>)
    requires xs != []
    ensures xs[0] in xs && multiset(xs) - multiset{xs[0]} == multiset(xs[1..])
  {
    assert xs == [] + [xs[0]] + xs[1..];
    MiddleOut([], xs[0], xs[1..]);
    assert [] + xs[1..] == xs[1..];
  }

  lemma SameMembers<X>(xs: seq<X>, ys: seq<X>, x: X)
    requires multiset(xs) == multiset(ys) && x in xs
    ensures x in ys
  {
    assert x in multiset(xs);
    assert x in multiset(ys);
  }

  /** Where the head of one arrangement stands in the other; without it the two are still permutations. */
  lemma Locate<X>(xs: seq<X>, ys: seq<X>) returns (a: seq<X>, b: seq<X>)
    requires xs != [] && multiset(xs) == multiset(ys)
    ensures ys == a + [xs[0]] + b && multiset(xs[1..]) == multiset(a + b)
  {
    HeadOut(xs);
    SameMembers(xs, ys, xs[0]);
    var i :| 0 <= i < |ys| && ys[i] == xs[0];
    a, b := ys[..i], ys[i + 1..];
    MiddleOut(a, xs[0], b);
    assert ys == a + [xs[0]] + b;
  }

  lemma FirstIsLeast(xs: seq<Bytes>, y: Bytes)
    requires Sorted(xs) && y in xs
    ensures Leq(xs[0], y)
  {
  }

  /** There is only one way to arrange a multiset in order. */
  lemma {:induction false} SortedIsUnique(xs: seq<Bytes>, ys: seq<Bytes>)
    requires Sorted(xs) && Sorted(ys) && multiset(xs) == multiset(ys)
    ensures xs == ys
  {
    if xs == [] || ys == [] {
      assert |multiset(xs)| == |multiset(ys)|;
    } else {
      SameHead(xs, ys);
      HeadOut(xs);
      HeadOut(ys);
      SortedIsUnique(xs[1..], ys[1..]);
      assert xs == [xs[0]] + xs[1..] && ys == [ys[0]] + ys[1..];
    }
  }

  lemma SameHead(xs: seq<Bytes>, ys: seq<Bytes>)
    requires Sorted(xs) && Sorted(ys) && multiset(xs) == multiset(ys) && xs != [] && ys != []
    ensures xs[0] == ys[0]
  {
    SameMembers(xs, ys, xs[0]);
    SameMembers(ys, xs, ys[0]);
    FirstIsLeast(xs, ys[0]);
    FirstIsLeast(ys, xs[0]);
    LeqAntisymmetric(xs[0], ys[0]);
  }

  lemma SortOfPermutation(xs: seq<Bytes>, ys: seq<Bytes>)
    requires multiset(xs) == multiset(ys)
    ensures Sort(xs) == Sort(ys)
  {
    SortSorts(xs);
    SortSorts(ys);
    SortedIsUnique(Sort(xs), Sort(ys));
  }
}
