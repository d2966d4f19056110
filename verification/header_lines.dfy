/**
 What the canonical headers say: one line for every signed name, with the name in lower case, a colon
 and the value without surrounding blanks.  The string tells two header maps apart exactly if some
 signed header has another value.
 */
module HeaderLines {
  import opened Splitting
  import opened IpfsNode
  import opened ByteOrder
  import opened Canonical
  import opened SigningOrder

  // ---------------------------------------------------------------------------------------------
  // Lines, said without the functions that make them.
  // ---------------------------------------------------------------------------------------------

  /** A space or a tab. */
  predicate Blank(b: byte)
  {
    b == 32 || b == 9
  }

  predicate AllBlank(bs: Bytes)
  {
    forall i :: 0 <= i < |bs| ==> Blank(bs[i])
  }

  /** `x` is `v` without its surrounding blanks. */
  ghost predicate IsTrimmed(v: Bytes, x: Bytes)
  {
    && (x != [] ==> !Blank(x[0]) && !Blank(x[|x| - 1]))
    && exists pre, post :: v == pre + x + post && AllBlank(pre) && AllBlank(post)
  }

  /** `l` is `n` with its ASCII capitals, the bytes 65 to 90, made small. */
  predicate IsLower(l: Bytes, n: Bytes)
  {
    |l| == |n| && forall i :: 0 <= i < |n| ==> l[i] == if 65 <= n[i] <= 90 then n[i] + 32 else n[i]
  }

  /** The line of a signed name; a header that is not there has the empty value. */
  ghost predicate IsLine(h: Headers, n: Bytes, line: Bytes)
  {
    exists l, x :: IsLower(l, n) && line == l + [58] + x && if l in h then IsTrimmed(h[l], x) else x == []
  }

  // ---------------------------------------------------------------------------------------------
  // Trimming.
  // ---------------------------------------------------------------------------------------------

  lemma {:induction false} TrimLeftDrops(v: Bytes) returns (pre: Bytes)
    ensures v == pre + TrimLeft(v) && AllBlank(pre)
    ensures TrimLeft(v) != [] ==> !Blank(TrimLeft(v)[0])
  {
    if v == [] || !Blank(v[0]) {
      pre := [];
    } else {
      var rest := TrimLeftDrops(v[1..]);
      pre := [v[0]] + rest;
    }
  }

  lemma {:induction false} TrimRightDrops(v: Bytes) returns (post: Bytes)
    ensures v == TrimRight(v) + post && AllBlank(post)
    ensures TrimRight(v) != [] ==> !Blank(TrimRight(v)[|TrimRight(v)| - 1])
  {
    if v == [] || !Blank(v[|v| - 1]) {
      post := [];
    } else {
      var rest := TrimRightDrops(v[..|v| - 1]);
      post := rest + [v[|v| - 1]];
    }
  }

  lemma TrimTrims(v: Bytes)
    ensures IsTrimmed(v, TrimRight(TrimLeft(v)))
  {
    var pre := TrimLeftDrops(v);
    var post := TrimRightDrops(TrimLeft(v));
    var x := TrimRight(TrimLeft(v));
    assert v == pre + x + post;
    assert x != [] ==> x[0] == TrimLeft(v)[0];
  }

  /** There is only one way to trim. */
  lemma TrimmedIsUnique(v: Bytes, x: Bytes, y: Bytes)
    requires IsTrimmed(v, x) && IsTrimmed(v, y)
    ensures x == y
  {
    var pre, post :| v == pre + x + post && AllBlank(pre) && AllBlank(post);
    var pre', post' :| v == pre' + y + post' && AllBlank(pre') && AllBlank(post');
    if x == [] {
      NothingButBlanks(pre, post, pre', y, post');
    } else if y == [] {
      NothingButBlanks(pre', post', pre, x, post);
    } else {
      NoLaterStart(pre, x, post, pre', y, post');
      NoLaterStart(pre', y, post', pre, x, post);
      NoEarlierEnd(pre, x, post, pre', y, post');
      NoEarlierEnd(pre', y, post', pre, x, post);
      assert x == v[|pre|..|v| - |post|] && y == v[|pre'|..|v| - |post'|];
    }
  }

  lemma NothingButBlanks(pre: Bytes, post: Bytes, pre': Bytes, y: Bytes, post': Bytes)
    requires pre + [] + post == pre' + y + post' && AllBlank(pre) && AllBlank(post)
    requires y != [] ==> !Blank(y[0])
    ensures y == []
  {
    var v := pre' + y + post';
    assert v == pre + post && AllBlank(v);
    if y != [] {
      FirstInTheMiddle(pre', y, post');
    }
  }

  lemma FirstInTheMiddle(pre: Bytes, y: Bytes, post: Bytes)
    requires y != []
    ensures (pre + y + post)[|pre|] == y[0]
  {
  }

  lemma BlankInFront(pre: Bytes, y: Bytes, post: Bytes, i: int)
    requires AllBlank(pre) && 0 <= i < |pre|
    ensures Blank((pre + y + post)[i])
  {
    assert (pre + y + post)[i] == pre[i];
  }

  lemma BlankBehind(pre: Bytes, y: Bytes, post: Bytes, i: int)
    requires AllBlank(post) && |pre + y| <= i < |pre + y + post|
    ensures Blank((pre + y + post)[i])
  {
    assert (pre + y + post)[i] == post[i - |pre + y|];
  }

  lemma NoLaterStart(pre: Bytes, x: Bytes, post: Bytes, pre': Bytes, y: Bytes, post': Bytes)
    requires pre + x + post == pre' + y + post' && x != [] && !Blank(x[0]) && AllBlank(pre')
    ensures |pre'| <= |pre|
  {
    assert (pre + x + post)[|pre|] == x[0];
    if |pre| < |pre'| {
      BlankInFront(pre', y, post', |pre|);
    }
  }

  lemma NoEarlierEnd(pre: Bytes, x: Bytes, post: Bytes, pre': Bytes, y: Bytes, post': Bytes)
    requires pre + x + post == pre' + y + post' && x != [] && !Blank(x[|x| - 1]) && AllBlank(post')
    ensures |post'| <= |post|
  {
    var last := |pre| + |x| - 1;
    assert (pre + x + post)[last] == x[|x| - 1];
    if |post| < |post'| {
      BlankBehind(pre', y, post', last);
    }
  }

  // ---------------------------------------------------------------------------------------------
  // The lines of the canonical headers.
  // ---------------------------------------------------------------------------------------------

  function LineOf(h: Headers, n: Bytes): Bytes
  {
    Glue(HeaderPair(h, n), COLON)
  }

  /** The bridge makes that line and no other. */
  lemma LineIff(h: Headers, n: Bytes, line: Bytes)
    ensures IsLine(h, n, line) <==> line == LineOf(h, n)
  {
    var l, x := Lower(n), HeaderPair(h, n).value;
    assert IsLower(l, n);
    if l in h {
      TrimTrims(h[l]);
    }
    if IsLine(h, n, line) {
      var l', x' :| IsLower(l', n) && line == l' + [58] + x' && if l' in h then IsTrimmed(h[l'], x') else x' == [];
      assert l' == l;
      if l in h {
        TrimmedIsUnique(h[l], x, x');
      }
    }
  }

  lemma {:induction false} GlueAllLines(h: Headers, names: seq<Bytes>)
    ensures |GlueAll(HeaderPairs(h, names), COLON)| == |names|
    ensures forall i :: 0 <= i < |names| ==> GlueAll(HeaderPairs(h, names), COLON)[i] == LineOf(h, names[i])
  {
    if names == [] {
    } else {
      GlueAllLines(h, names[1..]);
      var ps := HeaderPairs(h, names);
      assert ps == [HeaderPair(h, names[0])] + HeaderPairs(h, names[1..]);
      assert GlueAll(ps, COLON) == [LineOf(h, names[0])] + GlueAll(ps[1..], COLON);
    }
  }

  /** Names and values as HTTP has them: no line feed in either. */
  ghost predicate OneLine(h: Headers, names: seq<Bytes>)
  {
    (forall n :: n in names ==> LINE_FEED !in n) && (forall n :: n in h ==> LINE_FEED !in h[n])
  }

  /** The canonical headers are the sorted lines of the signed names, one for each. */
  lemma CanonicalHeaderLines(h: Headers, names: seq<Bytes>) returns (lines: seq<Bytes>)
    requires names != [] && OneLine(h, names)
    ensures |lines| == |names| && forall i :: 0 <= i < |names| ==> IsLine(h, names[i], lines[i])
    ensures multiset(Split(CanonicalHeaders(h, names), 10)) == multiset(lines)
    ensures Sorted(Split(CanonicalHeaders(h, names), 10))
  {
    lines := GlueAll(HeaderPairs(h, names), COLON);
    GlueAllLines(h, names);
    forall i | 0 <= i < |names| ensures IsLine(h, names[i], lines[i]) {
      LineIff(h, names[i], lines[i]);
    }
    SplitHeaders(h, names);
    SortSorts(lines);
  }

  lemma SplitHeaders(h: Headers, names: seq<Bytes>)
    requires names != [] && OneLine(h, names)
    ensures Split(CanonicalHeaders(h, names), LINE_FEED) == Sort(GlueAll(HeaderPairs(h, names), COLON))
  {
    var lines := GlueAll(HeaderPairs(h, names), COLON);
    GlueAllLines(h, names);
    HeaderLinesAreLines(h, names);
    SortSorts(lines);
    assert |multiset(Sort(lines))| == |multiset(lines)|;
    forall i | 0 <= i < |Sort(lines)| ensures LINE_FEED !in Sort(lines)[i] {
      SameMembers(Sort(lines), lines, Sort(lines)[i]);
    }
    SplitJoin(Sort(lines), LINE_FEED);
  }

  lemma {:induction false} GlueTellsApart(n: Bytes, v: Bytes, m: Bytes, w: Bytes)
    requires COLON !in n && COLON !in m && n + [COLON] + v == m + [COLON] + w
    ensures n == m && v == w
  {
    SplitFirst(n, v);
    SplitFirst(m, w);
  }

  lemma SplitFirst(n: Bytes, v: Bytes)
    requires COLON !in n
    ensures Split(n + [COLON] + v, COLON)[0] == n
    ensures (n + [COLON] + v)[|n| + 1..] == v
  {
    SplitAfter(n, v, COLON);
  }

  /** Both header maps give the name the same line. */
  ghost predicate AgreeOn(h: Headers, h': Headers, n: Bytes)
  {
    exists line :: IsLine(h, n, line) && IsLine(h', n, line)
  }

  lemma AgreeIff(h: Headers, h': Headers, n: Bytes)
    ensures AgreeOn(h, h', n) <==> LineOf(h, n) == LineOf(h', n)
  {
    LineIff(h, n, LineOf(h, n));
    LineIff(h', n, LineOf(h, n));
    if line :| IsLine(h, n, line) && IsLine(h', n, line) {
      LineIff(h, n, line);
      LineIff(h', n, line);
    }
  }

  /** Equal canonical headers give every signed name the same line. */
  lemma SameHeadersAgree(h: Headers, h': Headers, names: seq<Bytes>, n: Bytes)
    requires OneLine(h, names) && OneLine(h', names) && (forall m :: m in names ==> COLON !in m) && n in names
    requires CanonicalHeaders(h, names) == CanonicalHeaders(h', names)
    ensures LineOf(h, n) == LineOf(h', n)
  {
    var lines, lines' := GlueAll(HeaderPairs(h, names), COLON), GlueAll(HeaderPairs(h', names), COLON);
    SplitHeaders(h, names);
    SplitHeaders(h', names);
    SortSorts(lines);
    SortSorts(lines');
    GlueAllLines(h, names);
    GlueAllLines(h', names);
    var i :| 0 <= i < |names| && names[i] == n;
    SameMembers(lines, lines', lines[i]);
    var j :| 0 <= j < |lines'| && lines'[j] == lines[i];
    LowerKeepsOut(n, COLON);
    LowerKeepsOut(names[j], COLON);
    GlueTellsApart(Lower(n), HeaderPair(h, n).value, Lower(names[j]), HeaderPair(h', names[j]).value);
  }

  /** Two header maps have the same canonical headers exactly if they agree on every signed name. */
  lemma SameHeadersIff(h: Headers, h': Headers, names: seq<Bytes>)
    requires OneLine(h, names) && OneLine(h', names) && forall n :: n in names ==> COLON !in n
    ensures CanonicalHeaders(h, names) == CanonicalHeaders(h', names) <==> forall n :: n in names ==> AgreeOn(h, h', n)
  {
    forall n | n in names ensures AgreeOn(h, h', n) <==> LineOf(h, n) == LineOf(h', n) {
      AgreeIff(h, h', n);
    }
    if CanonicalHeaders(h, names) == CanonicalHeaders(h', names) {
      forall n | n in names ensures LineOf(h, n) == LineOf(h', n) {
        SameHeadersAgree(h, h', names, n);
      }
    }
    if forall n :: n in names ==> AgreeOn(h, h', n) {
      GlueAllLines(h, names);
      GlueAllLines(h', names);
      assert forall i :: 0 <= i < |names| ==> names[i] in names;
      assert GlueAll(HeaderPairs(h, names), COLON) == GlueAll(HeaderPairs(h', names), COLON);
    }
  }
}
