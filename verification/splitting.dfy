/**
 Cutting a sequence at a separator and gluing it back.  Keys are cut at `/`, query strings
 at `&`; both uses rest on the two round trips proved here.
 */
module Splitting {

  /** The pieces between separators; there is always at least one piece. */
  function Split<T(==)>(s: seq<T>, sep: T): (cs: seq<seq<T>>)
    ensures |cs| >= 1
  {
    if s == [] then [[]]
    else if s[0] == sep then [[]] + Split(s[1..], sep)
    else var cs := Split(s[1..], sep); [[s[0]] + cs[0]] + cs[1..]
  }

  function Join<T>(cs: seq<seq<T>>, sep: T): seq<T>
  {
    if |cs| == 0 then [] else if |cs| == 1 then cs[0] else cs[0] + [sep] + Join(cs[1..], sep)
  }

  ghost predicate NoSep<T>(cs: seq<seq<T>>, sep: T)
  {
    forall i :: 0 <= i < |cs| ==> sep !in cs[i]
  }

  lemma {:induction false} JoinSplit<T>(s: seq<T>, sep: T)
    ensures Join(Split(s, sep), sep) == s
  {
    if s == [] {
    } else {
      JoinSplit(s[1..], sep);
      var cs := Split(s[1..], sep);
      if s[0] == sep {
        assert ([[]] + cs)[1..] == cs;
      } else if |cs| > 1 {
        assert ([[s[0]] + cs[0]] + cs[1..])[1..] == cs[1..];
      }
    }
  }

  lemma {:induction false} SplitPieces<T>(s: seq<T>, sep: T)
    ensures NoSep(Split(s, sep), sep)
  {
    if s == [] {
    } else {
      SplitPieces(s[1..], sep);
    }
  }

  lemma {:induction false} SplitOne<T>(c: seq<T>, sep: T)
    requires sep !in c
    ensures Split(c, sep) == [c]
  {
    if c == [] {
    } else {
      SplitOne(c[1..], sep);
      assert [c[0]] + c[1..] == c;
    }
  }

  lemma {:induction false} SplitAfter<T>(c: seq<T>, rest: seq<T>, sep: T)
    requires sep !in c
    ensures Split(c + [sep] + rest, sep) == [c] + Split(rest, sep)
  {
    var s := c + [sep] + rest;
    if c == [] {
      assert s[1..] == rest;
    } else {
      assert s[1..] == c[1..] + [sep] + rest;
      SplitAfter(c[1..], rest, sep);
      assert [c[0]] + c[1..] == c;
    }
  }

  lemma {:induction false} SplitJoin<T>(cs: seq<seq<T>>, sep: T)
    requires |cs| >= 1 && NoSep(cs, sep)
    ensures Split(Join(cs, sep), sep) == cs
  {
    if |cs| == 1 {
      SplitOne(cs[0], sep);
    } else {
      SplitAfter(cs[0], Join(cs[1..], sep), sep);
      SplitJoin(cs[1..], sep);
    }
  }

  lemma {:induction false} JoinConcat<T>(xs: seq<seq<T>>, ys: seq<seq<T>>, sep: T)
    requires |xs| >= 1 && |ys| >= 1
    ensures Join(xs + ys, sep) == Join(xs, sep) + [sep] + Join(ys, sep)
  {
    if |xs| == 1 {
      assert (xs + ys)[1..] == ys;
    } else {
      assert (xs + ys)[1..] == xs[1..] + ys;
      JoinConcat(xs[1..], ys, sep);
    }
  }
}
