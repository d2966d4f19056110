/**
 SQLite's LIKE operator as the metadata queries use it: `%` and `_` are wildcards, ASCII letters
 compare without case, and there is no escape character.

 `Like` says what a match is.  `Compare` is the backtracking matcher with its three verdicts and
 its early termination: once a literal after a `%` cannot be found any more, no enclosing `%`
 needs to try a later position.
 */
module SqlLike {

  predicate Wild(c: char)
  {
    c == '%' || c == '_'
  }

  function Fold(c: char): char
  {
    if 'A' <= c <= 'Z' then (c as int + 32) as char else c
  }

  predicate SameChar(a: char, b: char)
  {
    Fold(a) == Fold(b)
  }

  /** The meaning of `s LIKE p`. */
  predicate Like(p: string, s: string)
    decreases |p| + |s|
  {
    if p == "" then s == ""
    else if p[0] == '%' then Like(p[1..], s) || (s != "" && Like(p, s[1..]))
    else s != "" && (p[0] == '_' || SameChar(p[0], s[0])) && Like(p[1..], s[1..])
  }

  datatype Verdict = Match | NoMatch | NoWildcardMatch

  /** Skips the wildcards that follow a `%`; every `_` among them costs one character of `s`. */
  function SkipRun(p: string, s: string): (r: (bool, string, string))
    ensures |r.1| <= |p| && |r.2| <= |s|
    ensures r.0 && r.1 != "" ==> !Wild(r.1[0])
    decreases |p|
  {
    if p == "" || !Wild(p[0]) then (true, p, s)
    else if p[0] == '%' then SkipRun(p[1..], s)
    else if s == "" then (false, p, s)
    else SkipRun(p[1..], s[1..])
  }

  /** The matcher. */
  function Compare(p: string, s: string): Verdict
    decreases |p|, |s|
  {
    if p == "" then if s == "" then Match else NoMatch
    else if p[0] == '%' then
      var (more, rest, text) := SkipRun(p[1..], s);
      if !more then NoWildcardMatch
      else if rest == "" then Match
      else Search(rest, text)
    else if s != "" && (SameChar(p[0], s[0]) || p[0] == '_') then Compare(p[1..], s[1..])
    else NoMatch
  }

  /** Looks for the literal `p[0]` in `s` and tries to match the remaining pattern behind it. */
  function Search(p: string, s: string): Verdict
    requires p != "" && !Wild(p[0])
    decreases |p|, |s|
  {
    if s == "" then NoWildcardMatch
    else if SameChar(p[0], s[0]) && Compare(p[1..], s[1..]) != NoMatch then Compare(p[1..], s[1..])
    else Search(p, s[1..])
  }

  predicate Matches(p: string, s: string)
  {
    Compare(p, s) == Match
  }

  // ---------------------------------------------------------------------------------------------
  // The matcher decides Like.
  // ---------------------------------------------------------------------------------------------

  lemma {:induction false} PercentIsAnySuffix(p: string, s: string)
    ensures Like("%" + p, s) <==> exists i :: 0 <= i <= |s| && Like(p, s[i..])
  {
    assert ("%" + p)[1..] == p;
    assert s[0..] == s;
    if s == "" {
    } else {
      PercentIsAnySuffix(p, s[1..]);
      if Like("%" + p, s[1..]) {
        var i :| 0 <= i <= |s[1..]| && Like(p, s[1..][i..]);
        assert s[1..][i..] == s[i + 1..];
      }
      if j :| 1 <= j <= |s| && Like(p, s[j..]) {
        assert s[1..][j - 1..] == s[j..];
      }
    }
  }

  lemma {:induction false} SkipRunKeepsLike(p: string, s: string)
    ensures var (more, rest, text) := SkipRun(p, s);
            Like("%" + p, s) <==> more && Like("%" + rest, text)
    decreases |p|
  {
    assert ("%" + p)[1..] == p;
    if p != "" && p[0] == '%' {
      SkipRunKeepsLike(p[1..], s);
      DoublePercent(p, s);
      assert "%" + p[1..] == p;
    } else if p != "" && p[0] == '_' {
      UnderscoreAfterPercent(p, s);
      if s != "" {
        SkipRunKeepsLike(p[1..], s[1..]);
      }
    }
  }

  lemma {:induction false} DoublePercent(p: string, s: string)
    requires p != "" && p[0] == '%'
    ensures Like("%" + p, s) <==> Like(p, s)
    decreases |s|
  {
    assert ("%" + p)[1..] == p;
    if s == "" {
    } else {
      DoublePercent(p, s[1..]);
    }
    assert "%" + p[1..] == p;
  }

  lemma {:induction false} UnderscoreAfterPercent(p: string, s: string)
    requires p != "" && p[0] == '_'
    ensures Like("%" + p, s) <==> s != "" && Like("%" + p[1..], s[1..])
    decreases |s|
  {
    assert ("%" + p)[1..] == p;
    assert ("%" + p[1..])[1..] == p[1..];
    if s == "" {
    } else {
      UnderscoreAfterPercent(p, s[1..]);
    }
  }

  lemma {:induction false} LikeSuffixOfPercent(p: string, s: string, i: nat)
    requires i <= |s| && Like(p, s[i..])
    ensures Like("%" + p, s)
  {
    PercentIsAnySuffix(p, s);
  }

  /** A verdict of NoWildcardMatch rules out every suffix of the text, not just the text itself. */
  lemma {:induction false} CompareDecidesLike(p: string, s: string)
    ensures Compare(p, s) == Match <==> Like(p, s)
    ensures Compare(p, s) == NoWildcardMatch ==> !Like("%" + p, s)
    decreases |p|, |s|
  {
    if p == "" {
    } else if p[0] == '%' {
      assert "%" + p[1..] == p;
      SkipRunKeepsLike(p[1..], s);
      DoublePercent(p, s);
      var (more, rest, text) := SkipRun(p[1..], s);
      if more && rest == "" {
        assert text[|text|..] == "";
        LikeSuffixOfPercent(rest, text, |text|);
      } else if more {
        SearchDecidesLike(rest, text);
      }
    } else if s != "" && (SameChar(p[0], s[0]) || p[0] == '_') {
      CompareDecidesLike(p[1..], s[1..]);
      if Compare(p, s) == NoWildcardMatch && Like("%" + p, s) {
        PercentIsAnySuffix(p, s);
        var i :| 0 <= i <= |s| && Like(p, s[i..]);
        assert s[i..][1..] == s[1..][i..];
        LikeSuffixOfPercent(p[1..], s[1..], i);
        assert false;
      }
    }
  }

  lemma {:induction false} SearchDecidesLike(p: string, s: string)
    requires p != "" && !Wild(p[0])
    ensures Search(p, s) == Match <==> Like("%" + p, s)
    ensures Search(p, s) != NoMatch
    decreases |p|, |s|
  {
    assert ("%" + p)[1..] == p;
    if s == "" {
    } else {
      SearchDecidesLike(p, s[1..]);
      if SameChar(p[0], s[0]) {
        CompareDecidesLike(p[1..], s[1..]);
        if Compare(p[1..], s[1..]) == NoWildcardMatch && Like("%" + p, s) {
          PercentIsAnySuffix(p, s);
          var i :| 0 <= i <= |s| && Like(p, s[i..]);
          assert s[i..][1..] == s[1..][i..];
          LikeSuffixOfPercent(p[1..], s[1..], i);
          assert false;
        }
      }
    }
  }

  // ---------------------------------------------------------------------------------------------
  // What each kind of pattern character matches.
  // ---------------------------------------------------------------------------------------------

  /** The two cases of one ASCII letter. */
  predicate TwoCases(upper: char, lower: char)
  {
    'A' <= upper <= 'Z' && 'a' <= lower <= 'z' && lower as int - upper as int == 'a' as int - 'A' as int
  }

  /** Equal, or the same ASCII letter in another case. */
  predicate Alike(a: char, b: char)
  {
    a == b || TwoCases(a, b) || TwoCases(b, a)
  }

  /** Character by character the same text, ASCII letters in any case. */
  predicate Casing(s: string, t: string)
  {
    |s| == |t| && forall i :: 0 <= i < |s| ==> Alike(s[i], t[i])
  }

  predicate WildcardFree(p: string)
  {
    forall i :: 0 <= i < |p| ==> p[i] != '%' && p[i] != '_'
  }

  /** A pattern without wildcards matches the casings of itself and nothing else. */
  lemma {:induction false} PlainMatchesCasings(p: string, s: string)
    requires WildcardFree(p)
    ensures Like(p, s) <==> Casing(p, s)
  {
    if p == "" {
    } else if s != "" {
      PlainMatchesCasings(p[1..], s[1..]);
      assert Casing(p, s) <==> Alike(p[0], s[0]) && Casing(p[1..], s[1..]) by {
        assert p == [p[0]] + p[1..] && s == [s[0]] + s[1..];
      }
    }
  }

  /** An underscore takes exactly one character, whichever it is. */
  lemma UnderscoreTakesOne(p: string, s: string)
    ensures Like("_" + p, s) <==> s != "" && Like(p, s[1..])
  {
    assert ("_" + p)[1..] == p;
  }

  lemma CasingWithSlash(a: string, t: string)
    ensures Casing(a + "/", t) <==> |t| == |a| + 1 && Casing(a, t[..|a|]) && t[|a|] == '/'
  {
    var p := a + "/";
    assert |p| == |a| + 1 && p[|a|] == '/';
    if |t| == |p| {
      assert forall i :: 0 <= i < |a| ==> p[i] == a[i] && t[..|a|][i] == t[i];
      if Casing(p, t) {
        assert Alike(p[|a|], t[|a|]);
        forall i | 0 <= i < |a| ensures Alike(a[i], t[..|a|][i]) {
          assert Alike(p[i], t[i]);
        }
      }
    }
  }

  /** The pattern of a directory name without wildcards matches what lies below a casing of that name. */
  lemma PlainMatchesBelow(a: string, s: string)
    requires WildcardFree(a)
    ensures Like(a + "/%", s) <==> |s| > |a| && Casing(a, s[..|a|]) && s[|a|] == '/'
  {
    assert a + "/" + "%" == a + "/%";
    if Like(a + "/%", s) {
      var i := LikeCut(a + "/", "%", s);
      PlainMatchesCasings(a + "/", s[..i]);
      CasingWithSlash(a, s[..i]);
      assert s[..i][..|a|] == s[..|a|];
    }
    if |s| > |a| && Casing(a, s[..|a|]) && s[|a|] == '/' {
      BelowACasing(a, s);
    }
  }

  lemma BelowACasing(a: string, s: string)
    requires WildcardFree(a) && |s| > |a| && Casing(a, s[..|a|]) && s[|a|] == '/'
    ensures Like(a + "/%", s)
  {
    var head, tail := s[..|a| + 1], s[|a| + 1..];
    assert head[..|a|] == s[..|a|];
    CasingWithSlash(a, head);
    PlainMatchesCasings(a + "/", head);
    PercentMatchesAll(tail);
    LikeAppend(a + "/", head, "%", tail);
    assert head + tail == s && a + "/" + "%" == a + "/%";
  }

  // ---------------------------------------------------------------------------------------------
  // Patterns of the form `ancestor/%`.
  // ---------------------------------------------------------------------------------------------

  lemma {:induction false} LikeAppend(p: string, s: string, q: string, t: string)
    requires Like(p, s) && Like(q, t)
    ensures Like(p + q, s + t)
    decreases |p| + |s|
  {
    if p == "" {
      assert p + q == q && s + t == t;
    } else {
      assert (p + q)[1..] == p[1..] + q;
      if p[0] == '%' && Like(p[1..], s) {
        LikeAppend(p[1..], s, q, t);
      } else {
        assert (s + t)[1..] == s[1..] + t;
        LikeAppend(if p[0] == '%' then p else p[1..], s[1..], q, t);
      }
    }
  }

  lemma {:induction false} LikeCut(p: string, q: string, s: string) returns (i: nat)
    requires Like(p + q, s)
    ensures i <= |s| && Like(p, s[..i]) && Like(q, s[i..])
    decreases |p| + |s|
  {
    if p == "" {
      i := 0;
      assert p + q == q && s[0..] == s;
    } else {
      assert (p + q)[1..] == p[1..] + q;
      if p[0] == '%' && Like(p[1..] + q, s) {
        i := LikeCut(p[1..], q, s);
      } else {
        var j := LikeCut(if p[0] == '%' then p else p[1..], q, s[1..]);
        i := j + 1;
        assert s[..i][1..] == s[1..][..j];
        assert s[i..] == s[1..][j..];
      }
    }
  }

  lemma {:induction false} PercentMatchesAll(s: string)
    ensures Like("%", s)
  {
    if s == "" {
    } else {
      PercentMatchesAll(s[1..]);
    }
  }

  lemma {:induction false} LikeItself(p: string)
    ensures Like(p, p)
  {
    if p == "" {
    } else {
      LikeItself(p[1..]);
      assert p == [p[0]] + p[1..];
      if p[0] == '%' {
        // one character for the `%`, the rest by induction
        assert Like(p[1..], p[1..]);
        assert Like(p, p[1..]);
      }
    }
  }

  /** What matches a deeper directory pattern matches every shallower one, wildcards or not. */
  lemma {:induction false} DeeperMatchesShallower(a: string, r: string, s: string)
    requires Like(a + "/" + r, s)
    ensures Like(a + "/%", s)
  {
    var i := LikeCut(a + "/", r, s);
    PercentMatchesAll(s[i..]);
    LikeAppend(a + "/", s[..i], "%", s[i..]);
    assert s[..i] + s[i..] == s;
    assert a + "/" + "%" == a + "/%";
  }

  /** The pattern never misses what lies literally below the directory. */
  lemma {:induction false} BelowMatches(a: string, s: string)
    requires a + "/" <= s
    ensures Like(a + "/%", s)
  {
    LikeItself(a + "/");
    assert s[..|a| + 1] == a + "/";
    PercentMatchesAll(s[|a| + 1..]);
    LikeAppend(a + "/", s[..|a| + 1], "%", s[|a| + 1..]);
    assert s[..|a| + 1] + s[|a| + 1..] == s;
    assert a + "/" + "%" == a + "/%";
  }

  /** No wildcard and no ASCII capital: the characters on which LIKE is plain equality. */
  predicate Literal(s: string)
  {
    forall c :: c in s ==> !Wild(c) && Fold(c) == c
  }

  lemma {:induction false} LiteralIsEquality(p: string, s: string)
    requires Literal(p) && forall c :: c in s ==> Fold(c) == c
    requires Like(p, s)
    ensures p == s
  {
    if p == "" {
    } else {
      assert p[0] in p && (s != "" ==> s[0] in s);
      LiteralIsEquality(p[1..], s[1..]);
      assert p == [p[0]] + p[1..] && s == [s[0]] + s[1..];
    }
  }

  lemma {:induction false} LiteralMatchesBelow(a: string, s: string)
    requires Literal(a) && Literal(s)
    ensures Like(a + "/%", s) <==> a + "/" <= s
  {
    if Like(a + "/%", s) {
      assert a + "/" + "%" == a + "/%";
      var i := LikeCut(a + "/", "%", s);
      LiteralIsEquality(a + "/", s[..i]);
    }
    if a + "/" <= s {
      BelowMatches(a, s);
    }
  }

  // ---------------------------------------------------------------------------------------------
  // Separators.
  // ---------------------------------------------------------------------------------------------

  function Slashes(s: string): nat
  {
    if s == "" then 0 else (if s[0] == '/' then 1 else 0) + Slashes(s[1..])
  }

  /** Every separator in a pattern needs one in the text. */
  lemma {:induction false} LikeNeedsSlashes(p: string, s: string)
    requires Like(p, s)
    ensures Slashes(p) <= Slashes(s)
    decreases |p| + |s|
  {
    if p == "" {
    } else {
      if p[0] == '%' && Like(p[1..], s) {
        LikeNeedsSlashes(p[1..], s);
      } else {
        LikeNeedsSlashes(if p[0] == '%' then p else p[1..], s[1..]);
      }
    }
  }

  lemma {:induction false} SlashesConcat(a: string, b: string)
    ensures Slashes(a + b) == Slashes(a) + Slashes(b)
  {
    if a == "" {
      assert a + b == b;
    } else {
      assert (a + b)[1..] == a[1..] + b;
      SlashesConcat(a[1..], b);
    }
  }

  /** No key lies below itself, whatever wildcards it holds. */
  lemma NotBelowItself(key: string)
    ensures !Like(key + "/%", key)
  {
    SlashesConcat(key, "/%");
    assert Slashes("/%") == 1;
    if Like(key + "/%", key) {
      LikeNeedsSlashes(key + "/%", key);
    }
  }
}
