/**
 Signature Version 4 asks for parameters sorted by name and then value; the bridge sorts the strings
 in which both are already glued together.  The two agree exactly when no name is continued, in
 another name, by a byte below the separator.  The same holds for signed headers with their colon.
 */
module SigningOrder {
  import opened Splitting
  import opened IpfsNode
  import opened ByteOrder
  import opened Canonical

  predicate PairLeq(p: Pair, q: Pair)
  {
    if p.name == q.name then Leq(p.value, q.value) else Leq(p.name, q.name)
  }

  ghost predicate PairSorted(ps: seq<Pair>)
  {
    forall i, j :: 0 <= i <= j < |ps| ==> PairLeq(ps[i], ps[j])
  }

  function InsertPair(p: Pair, ps: seq<Pair>): seq<Pair>
  {
    if ps == [] || PairLeq(p, ps[0]) then [p] + ps else [ps[0]] + InsertPair(p, ps[1..])
  }

  function SortPairs(ps: seq<Pair>): seq<Pair>
  {
    if ps == [] then [] else InsertPair(ps[0], SortPairs(ps[1..]))
  }

  lemma PairLeqTotal(p: Pair, q: Pair)
    ensures PairLeq(p, q) || PairLeq(q, p)
  {
    LeqTotal(p.name, q.name);
    LeqTotal(p.value, q.value);
  }

  lemma PairLeqTransitive(p: Pair, q: Pair, r: Pair)
    requires PairLeq(p, q) && PairLeq(q, r)
    ensures PairLeq(p, r)
  {
    if p.name == q.name && q.name == r.name {
      LeqTransitive(p.value, q.value, r.value);
    } else if p.name != q.name && q.name != r.name {
      LeqTransitive(p.name, q.name, r.name);
      if p.name == r.name {
        LeqAntisymmetric(p.name, q.name);
      }
    }
  }

  lemma {:induction false} InsertPairSorts(p: Pair, ps: seq<Pair>)
    requires PairSorted(ps)
    ensures PairSorted(InsertPair(p, ps)) && multiset(InsertPair(p, ps)) == multiset(ps) + multiset{p}
  {
    PairLeqTotal(p, p);
    if ps == [] {
    } else if PairLeq(p, ps[0]) {
      forall j | 0 <= j < |ps| ensures PairLeq(p, ps[j]) {
        PairLeqTransitive(p, ps[0], ps[j]);
      }
    } else {
      PairLeqTotal(p, ps[0]);
      PairLeqTotal(ps[0], ps[0]);
      assert ps == [ps[0]] + ps[1..];
      InsertPairSorts(p, ps[1..]);
      var rest := InsertPair(p, ps[1..]);
      forall j | 0 <= j < |rest| ensures PairLeq(ps[0], rest[j]) {
        assert rest[j] in multiset(rest);
        assert rest[j] == p || rest[j] in ps[1..];
      }
    }
  }

  lemma {:induction false} SortPairsSorts(ps: seq<Pair>)
    ensures PairSorted(SortPairs(ps)) && multiset(SortPairs(ps)) == multiset(ps)
  {
    if ps == [] {
    } else {
      SortPairsSorts(ps[1..]);
      InsertPairSorts(ps[0], SortPairs(ps[1..]));
      assert ps == [ps[0]] + ps[1..];
    }
  }

  function GlueAll(ps: seq<Pair>, sep: byte): seq<Bytes>
  {
    Gather((p: Pair) => [Glue(p, sep)], ps)
  }

  lemma {:induction false} GlueAllAt(ps: seq<Pair>, sep: byte)
    ensures |GlueAll(ps, sep)| == |ps|
    ensures forall i :: 0 <= i < |ps| ==> GlueAll(ps, sep)[i] == Glue(ps[i], sep)
  {
    if ps == [] {
    } else {
      GlueAllAt(ps[1..], sep);
      assert GlueAll(ps, sep) == [Glue(ps[0], sep)] + GlueAll(ps[1..], sep);
    }
  }

  /** `short` is continued in `long` by a byte that sorts before the separator. */
  predicate Clash(short: Bytes, long: Bytes, sep: byte)
  {
    short < long && long[|short|] < sep
  }

  ghost predicate AnyClash(ps: seq<Pair>, sep: byte)
  {
    exists p, q :: p in ps && q in ps && Clash(p.name, q.name, sep)
  }

  ghost predicate NamesWithout(ps: seq<Pair>, sep: byte)
  {
    forall p :: p in ps ==> sep !in p.name
  }

  lemma {:induction false} LeqBehind(n: Bytes, a: Bytes, b: Bytes)
    ensures Leq(n + a, n + b) <==> Leq(a, b)
  {
    if n == [] {
      assert n + a == a && n + b == b;
    } else {
      assert (n + a)[1..] == n[1..] + a && (n + b)[1..] == n[1..] + b;
      LeqBehind(n[1..], a, b);
    }
  }

  /** Gluing keeps the order of two different names, unless the larger one continues the smaller below the separator. */
  lemma {:induction false} GlueOrder(n: Bytes, m: Bytes, v: Bytes, w: Bytes, sep: byte)
    requires sep !in n && sep !in m && n != m && Leq(n, m)
    ensures Leq(n + [sep] + v, m + [sep] + w) <==> !Clash(n, m, sep)
  {
    var a, b := n + [sep] + v, m + [sep] + w;
    if n == [] {
      assert a[0] == sep;
      assert m[0] in m && b[0] == m[0];
    } else if n[0] == m[0] {
      assert a[1..] == n[1..] + [sep] + v && b[1..] == m[1..] + [sep] + w;
      assert n == [n[0]] + n[1..] && m == [m[0]] + m[1..];
      GlueOrder(n[1..], m[1..], v, w, sep);
      assert n < m <==> n[1..] < m[1..];
    }
  }

  lemma GlueKeepsPairOrder(p: Pair, q: Pair, sep: byte)
    requires sep !in p.name && sep !in q.name && PairLeq(p, q) && !Clash(p.name, q.name, sep)
    ensures Leq(Glue(p, sep), Glue(q, sep))
  {
    if p.name == q.name {
      LeqBehind(p.name + [sep], p.value, q.value);
    } else {
      GlueOrder(p.name, q.name, p.value, q.value, sep);
    }
  }

  lemma {:induction false} PrefixIsLeq(n: Bytes, m: Bytes)
    requires n <= m
    ensures Leq(n, m)
  {
    if n == [] {
    } else {
      PrefixIsLeq(n[1..], m[1..]);
    }
  }

  /** Sorting the glued strings is sorting by name and value exactly when no two names clash. */
  lemma SortsAgreeIffNoClash(ps: seq<Pair>, sep: byte)
    requires NamesWithout(ps, sep)
    ensures Sort(GlueAll(ps, sep)) == GlueAll(SortPairs(ps), sep) <==> !AnyClash(ps, sep)
  {
    var qs := SortPairs(ps);
    SortPairsSorts(ps);
    SortSorts(GlueAll(ps, sep));
    GatherPermuted((p: Pair) => [Glue(p, sep)], ps, qs);
    GlueAllAt(qs, sep);
    SameElements(ps, qs);
    if AnyClash(ps, sep) {
      ClashBreaksOrder(qs, sep);
    } else {
      NoClashKeepsOrder(qs, sep);
      SortedIsUnique(Sort(GlueAll(ps, sep)), GlueAll(qs, sep));
    }
  }

  lemma SameElements(ps: seq<Pair>, qs: seq<Pair>)
    requires multiset(ps) == multiset(qs)
    ensures forall p :: p in ps <==> p in qs
  {
    forall p ensures p in ps <==> p in qs {
      assert p in ps <==> p in multiset(ps);
      assert p in qs <==> p in multiset(qs);
    }
  }

  lemma NoClashKeepsOrder(qs: seq<Pair>, sep: byte)
    requires PairSorted(qs) && NamesWithout(qs, sep) && !AnyClash(qs, sep)
    ensures Sorted(GlueAll(qs, sep))
  {
    GlueAllAt(qs, sep);
    forall i, j | 0 <= i <= j < |qs| ensures Leq(Glue(qs[i], sep), Glue(qs[j], sep)) {
      assert qs[i] in qs && qs[j] in qs;
      GlueKeepsPairOrder(qs[i], qs[j], sep);
    }
  }

  lemma ClashBreaksOrder(qs: seq<Pair>, sep: byte)
    requires PairSorted(qs) && NamesWithout(qs, sep) && AnyClash(qs, sep)
    ensures !Sorted(GlueAll(qs, sep))
  {
    GlueAllAt(qs, sep);
    var p, q :| p in qs && q in qs && Clash(p.name, q.name, sep);
    var i :| 0 <= i < |qs| && qs[i] == p;
    var j :| 0 <= j < |qs| && qs[j] == q;
    PrefixIsLeq(p.name, q.name);
    GlueOrder(p.name, q.name, p.value, q.value, sep);
    if j <= i {
      assert PairLeq(q, p);
      LeqAntisymmetric(p.name, q.name);
    }
  }

  /** Joining tells arrangements of the same pieces apart. */
  lemma JoinTellsApart(xs: seq<Bytes>, ys: seq<Bytes>, sep: byte)
    requires multiset(xs) == multiset(ys) && forall x :: x in xs ==> sep !in x
    ensures Join(xs, sep) == Join(ys, sep) <==> xs == ys
  {
    assert |xs| == |multiset(xs)| == |multiset(ys)| == |ys|;
    forall y | y in ys ensures y in xs {
      SameMembers(ys, xs, y);
    }
    if xs != [] {
      SplitJoin(xs, sep);
      SplitJoin(ys, sep);
    }
  }

  /** The joined string is the standard's exactly when the sorted lists agree. */
  lemma JoinedSortsAgreeIff(ps: seq<Pair>, sep: byte, glue: byte)
    requires NamesWithout(ps, sep) && forall x :: x in GlueAll(ps, sep) ==> glue !in x
    ensures Join(Sort(GlueAll(ps, sep)), glue) == Join(GlueAll(SortPairs(ps), sep), glue) <==> !AnyClash(ps, sep)
  {
    var xs, ys := Sort(GlueAll(ps, sep)), GlueAll(SortPairs(ps), sep);
    SortsAgreeIffNoClash(ps, sep);
    SortSorts(GlueAll(ps, sep));
    SortPairsSorts(ps);
    GatherPermuted((p: Pair) => [Glue(p, sep)], ps, SortPairs(ps));
    forall x | x in xs ensures glue !in x {
      SameMembers(xs, GlueAll(ps, sep), x);
    }
    JoinTellsApart(xs, ys, glue);
  }

  /**
   For a query string: what the bridge signs is what the standard asks for exactly when no encoded
   name is continued in another encoded name by a byte below `=`.
   */
  lemma QueryFollowsStandardIff(query: Bytes)
    ensures var ps := EncodedPairs(QueryPairs(query));
            CanonicalQueryString(query) == Join(GlueAll(SortPairs(ps), EQUALS), AMPERSAND) <==> !AnyClash(ps, EQUALS)
  {
    var qs := QueryPairs(query);
    EncodedPairsGlue(qs);
    EncodeAllIsClean(qs);
    forall x | x in EncodeAll(qs) ensures AMPERSAND !in x {
      var i :| 0 <= i < |qs| && x == EncodeAll(qs)[i];
      EncodedPairIsOneSegment(qs[i]);
    }
    JoinedSortsAgreeIff(EncodedPairs(qs), EQUALS, AMPERSAND);
  }

  function EncodedPairs(ps: seq<Pair>): seq<Pair>
  {
    if ps == [] then [] else [Pair(Encode(ps[0].name), Encode(ps[0].value))] + EncodedPairs(ps[1..])
  }

  lemma {:induction false} EncodedPairsGlue(ps: seq<Pair>)
    ensures GlueAll(EncodedPairs(ps), EQUALS) == EncodeAll(ps)
    ensures NamesWithout(EncodedPairs(ps), EQUALS)
  {
    if ps == [] {
    } else {
      EncodedPairsGlue(ps[1..]);
      EncodeIsClean(ps[0].name);
      var es := EncodedPairs(ps);
      assert es[1..] == EncodedPairs(ps[1..]);
      assert GlueAll(es, EQUALS) == [Glue(es[0], EQUALS)] + GlueAll(es[1..], EQUALS);
      assert EncodeAll(ps) == [EncodePair(ps[0])] + EncodeAll(ps[1..]);
    }
  }

  // ---------------------------------------------------------------------------------------------
  // Signed headers.
  // ---------------------------------------------------------------------------------------------

  const COLON: byte := 58
  const LINE_FEED: byte := 10

  /** Header names in lower case with their first values. */
  type Headers = map<Bytes, Bytes>

  function TrimLeft(v: Bytes): Bytes
  {
    if v != [] && (v[0] == 32 || v[0] == 9) then TrimLeft(v[1..]) else v
  }

  function TrimRight(v: Bytes): Bytes
  {
    if v != [] && (v[|v| - 1] == 32 || v[|v| - 1] == 9) then TrimRight(v[..|v| - 1]) else v
  }

  function HeaderPair(h: Headers, name: Bytes): Pair
  {
    Pair(Lower(name), if Lower(name) in h then TrimRight(TrimLeft(h[Lower(name)])) else [])
  }

  function HeaderPairs(h: Headers, names: seq<Bytes>): seq<Pair>
  {
    Gather((name: Bytes) => [HeaderPair(h, name)], names)
  }

  function CanonicalHeaders(h: Headers, names: seq<Bytes>): Bytes
  {
    Join(Sort(GlueAll(HeaderPairs(h, names), COLON)), LINE_FEED)
  }

  /** The order in which the client lists the signed headers does not matter. */
  lemma HeaderOrderDoesNotMatter(h: Headers, names: seq<Bytes>, permuted: seq<Bytes>)
    requires multiset(names) == multiset(permuted)
    ensures CanonicalHeaders(h, names) == CanonicalHeaders(h, permuted)
  {
    GatherPermuted((name: Bytes) => [HeaderPair(h, name)], names, permuted);
    GatherPermuted((p: Pair) => [Glue(p, COLON)], HeaderPairs(h, names), HeaderPairs(h, permuted));
    SortOfPermutation(GlueAll(HeaderPairs(h, names), COLON), GlueAll(HeaderPairs(h, permuted), COLON));
  }

  lemma {:induction false} HeaderNamesWithout(h: Headers, names: seq<Bytes>)
    requires forall n :: n in names ==> COLON !in n
    ensures NamesWithout(HeaderPairs(h, names), COLON)
  {
    if names == [] {
    } else {
      HeaderNamesWithout(h, names[1..]);
      assert HeaderPairs(h, names) == [HeaderPair(h, names[0])] + HeaderPairs(h, names[1..]);
      LowerKeepsOut(names[0], COLON);
    }
  }

  lemma LowerKeepsOut(n: Bytes, b: byte)
    requires b !in n && !(97 <= b <= 122)
    ensures b !in Lower(n)
  {
    forall i | 0 <= i < |n| ensures Lower(n)[i] != b {
      assert n[i] in n;
    }
  }

  lemma {:induction false} TrimKeepsOut(v: Bytes, b: byte)
    requires b !in v
    ensures b !in TrimLeft(v) && b !in TrimRight(v)
    decreases |v|
  {
    if v == [] {
    } else {
      TrimKeepsOut(v[1..], b);
      TrimKeepsOut(v[..|v| - 1], b);
    }
  }

  /** Header lines hold no line feed, as the header map admits none. */
  lemma HeaderLineIsOneLine(h: Headers, name: Bytes)
    requires LINE_FEED !in name && forall n :: n in h ==> LINE_FEED !in h[n]
    ensures LINE_FEED !in Glue(HeaderPair(h, name), COLON)
  {
    LowerKeepsOut(name, LINE_FEED);
    if Lower(name) in h {
      TrimKeepsOut(h[Lower(name)], LINE_FEED);
      TrimKeepsOut(TrimLeft(h[Lower(name)]), LINE_FEED);
    }
  }

  lemma {:induction false} HeaderLinesAreLines(h: Headers, names: seq<Bytes>)
    requires forall n :: n in names ==> LINE_FEED !in n
    requires forall n :: n in h ==> LINE_FEED !in h[n]
    ensures forall x :: x in GlueAll(HeaderPairs(h, names), COLON) ==> LINE_FEED !in x
  {
    if names == [] {
    } else {
      HeaderLineIsOneLine(h, names[0]);
      HeaderLinesAreLines(h, names[1..]);
      var ps := HeaderPairs(h, names);
      assert ps == [HeaderPair(h, names[0])] + HeaderPairs(h, names[1..]);
      assert GlueAll(ps, COLON) == [Glue(ps[0], COLON)] + GlueAll(ps[1..], COLON);
    }
  }

  /**
   The canonical headers are the standard's exactly when no lower-case name clashes with another.
   Neither names nor values of headers can hold a line feed, and names hold no colon.
   */
  lemma HeadersFollowStandardIff(h: Headers, names: seq<Bytes>)
    requires forall n :: n in names ==> COLON !in n && LINE_FEED !in n
    requires forall n :: n in h ==> LINE_FEED !in h[n]
    ensures var ps := HeaderPairs(h, names);
            CanonicalHeaders(h, names) == Join(GlueAll(SortPairs(ps), COLON), LINE_FEED) <==> !AnyClash(ps, COLON)
  {
    HeaderNamesWithout(h, names);
    HeaderLinesAreLines(h, names);
    JoinedSortsAgreeIff(HeaderPairs(h, names), COLON, LINE_FEED);
  }
}
