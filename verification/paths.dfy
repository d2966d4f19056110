/**
 Keys as paths.  An object lives in the node's file tree at `/prefix/bucket/key`, built by pushing
 the three parts with a check and normalising the result; a path in the tree is the sequence of its
 component names below the root.
 */
module Paths {
  import opened Options
  import opened Splitting

  type Path = seq<string>

  /** A component that names an entry: neither empty, nor `.`, nor `..`. */
  predicate Plain(c: string)
  {
    c != "" && c != "." && c != ".."
  }

  predicate AllPlain(cs: seq<string>)
  {
    forall i :: 0 <= i < |cs| ==> Plain(cs[i])
  }

  function Parts(s: string): (cs: seq<string>)
    ensures |cs| >= 1
  {
    Split(s, '/')
  }

  function Unparts(cs: seq<string>): string
  {
    Join(cs, '/')
  }

  predicate Absolute(s: string)
  {
    s != "" && s[0] == '/'
  }

  /** The checked push counts names minus `..`; it refuses a `..` that would leave the pushed part. */
  predicate StaysInside(cs: seq<string>, depth: nat)
  {
    if cs == [] then true
    else if cs[0] == ".." then depth > 0 && StaysInside(cs[1..], depth - 1)
    else StaysInside(cs[1..], if Plain(cs[0]) then depth + 1 else depth)
  }

  predicate PushAccepted(part: string)
  {
    !Absolute(part) && StaysInside(Parts(part), 0)
  }

  /** Resolves `.`, `..` and empty components against the components resolved so far. */
  function Resolve(cs: seq<string>, done: Path): Path
  {
    if cs == [] then done
    else if cs[0] == ".." then Resolve(cs[1..], if done == [] then done else done[..|done| - 1])
    else if Plain(cs[0]) then Resolve(cs[1..], done + [cs[0]])
    else Resolve(cs[1..], done)
  }

  /** One pushed part, resolved on its own. */
  function Resolved(part: string): Path
  {
    Resolve(Parts(part), [])
  }

  function NormalizedPath(start: string, bucket: string, key: string): Option<Path>
  {
    if PushAccepted(start) && PushAccepted(bucket) && PushAccepted(key)
    then Some(Resolved(start) + Resolved(bucket) + Resolved(key))
    else None
  }

  /**
   The bridge's path buffer: the parts are pushed onto the root one by one and only the
   complete path is normalised.  That this equals resolving every part by itself is what keeps an
   object under its own bucket.
   */
  method PushAndNormalize(start: string, bucket: string, key: string) returns (r: Option<Path>)
    ensures r == NormalizedPath(start, bucket, key)
  {
    var root: seq<string> := [];
    if !PushAccepted(start) {
      return None;
    }
    root := root + Parts(start);
    if !PushAccepted(bucket) {
      return None;
    }
    root := root + Parts(bucket);
    if !PushAccepted(key) {
      return None;
    }
    root := root + Parts(key);
    ResolveConcat(Parts(start) + Parts(bucket), Parts(key), []);
    ResolveConcat(Parts(start), Parts(bucket), []);
    ResolveAbove(Parts(bucket), Resolved(start), []);
    ResolveAbove(Parts(key), Resolved(start) + Resolved(bucket), []);
    assert [] + Parts(start) == Parts(start);
    assert Resolved(start) + [] == Resolved(start);
    assert Resolved(start) + Resolved(bucket) + [] == Resolved(start) + Resolved(bucket);
    r := Some(Resolve(root, []));
  }

  lemma {:induction false} ResolveConcat(xs: seq<string>, ys: seq<string>, done: Path)
    ensures Resolve(xs + ys, done) == Resolve(ys, Resolve(xs, done))
  {
    if xs == [] {
      assert xs + ys == ys;
    } else {
      assert (xs + ys)[1..] == xs[1..] + ys;
      var next := if xs[0] == ".." then if done == [] then done else done[..|done| - 1]
                  else if Plain(xs[0]) then done + [xs[0]] else done;
      ResolveConcat(xs[1..], ys, next);
    }
  }

  /** An accepted part never pops what was on the path before it. */
  lemma {:induction false} ResolveAbove(cs: seq<string>, below: Path, done: Path)
    requires StaysInside(cs, |done|)
    ensures Resolve(cs, below + done) == below + Resolve(cs, done)
  {
    if cs == [] {
    } else {
      if cs[0] == ".." {
        assert (below + done)[..|below + done| - 1] == below + done[..|done| - 1];
        ResolveAbove(cs[1..], below, done[..|done| - 1]);
      } else if Plain(cs[0]) {
        assert below + done + [cs[0]] == below + (done + [cs[0]]);
        ResolveAbove(cs[1..], below, done + [cs[0]]);
      } else {
        ResolveAbove(cs[1..], below, done);
      }
    }
  }

  lemma {:induction false} ResolveIsPlain(cs: seq<string>, done: Path)
    requires AllPlain(done)
    ensures AllPlain(Resolve(cs, done))
  {
    if cs == [] {
    } else {
      var next := if cs[0] == ".." then if done == [] then done else done[..|done| - 1]
                  else if Plain(cs[0]) then done + [cs[0]] else done;
      ResolveIsPlain(cs[1..], next);
    }
  }

  lemma {:induction false} ResolvePlain(cs: seq<string>, done: Path)
    requires AllPlain(cs)
    ensures Resolve(cs, done) == done + cs
  {
    if cs == [] {
    } else {
      ResolvePlain(cs[1..], done + [cs[0]]);
      assert done + [cs[0]] + cs[1..] == done + cs;
    }
  }

  lemma {:induction false} StaysInsidePlain(cs: seq<string>, depth: nat)
    requires AllPlain(cs)
    ensures StaysInside(cs, depth)
  {
    if cs == [] {
    } else {
      StaysInsidePlain(cs[1..], depth + 1);
    }
  }

  /** Every accepted path lies below its normalised bucket, and normalising it again is idle. */
  lemma {:induction false} PathStaysUnderBucket(start: string, bucket: string, key: string)
    requires NormalizedPath(start, bucket, key).Some?
    ensures var path := NormalizedPath(start, bucket, key).value;
            && Resolved(start) + Resolved(bucket) <= path
            && AllPlain(path)
            && Resolve(path, []) == path
  {
    ResolveIsPlain(Parts(start), []);
    ResolveIsPlain(Parts(bucket), []);
    ResolveIsPlain(Parts(key), []);
    ResolvePlain(NormalizedPath(start, bucket, key).value, []);
  }

  // ---------------------------------------------------------------------------------------------
  // Which parts are accepted.
  // ---------------------------------------------------------------------------------------------

  function Names(cs: seq<string>): nat
  {
    if cs == [] then 0
    else Names(cs[..|cs| - 1]) + if cs[|cs| - 1] in {"", ".", ".."} then 0 else 1
  }

  function Ups(cs: seq<string>): nat
  {
    if cs == [] then 0 else Ups(cs[..|cs| - 1]) + if cs[|cs| - 1] == ".." then 1 else 0
  }

  /** Read from the front, there are never more ups than names. */
  predicate NeverAbove(cs: seq<string>)
  {
    forall i :: 0 <= i <= |cs| ==> Ups(cs[..i]) <= Names(cs[..i])
  }

  lemma {:induction false} CountsFromFront(cs: seq<string>, i: nat)
    requires 0 < i <= |cs|
    ensures Names(cs[..i]) == Names([cs[0]]) + Names(cs[1..][..i - 1])
    ensures Ups(cs[..i]) == Ups([cs[0]]) + Ups(cs[1..][..i - 1])
  {
    if i == 1 {
      assert cs[..1] == [cs[0]] && cs[1..][..0] == [];
    } else {
      CountsFromFront(cs, i - 1);
      assert cs[..i][..i - 1] == cs[..i - 1];
      assert cs[1..][..i - 1][..i - 2] == cs[1..][..i - 2];
    }
  }

  lemma {:induction false} StaysInsideIff(cs: seq<string>, depth: nat)
    ensures StaysInside(cs, depth) <==> forall i :: 0 <= i <= |cs| ==> Ups(cs[..i]) <= depth + Names(cs[..i])
  {
    if cs == [] {
    } else {
      assert [cs[0]][..0] == [];
      forall i | 0 < i <= |cs|
        ensures Ups(cs[..i]) - Names(cs[..i]) == Ups(cs[1..][..i - 1]) - Names(cs[1..][..i - 1])
                + if cs[0] == ".." then 1 else if Plain(cs[0]) then -1 else 0
      {
        CountsFromFront(cs, i);
      }
      var next := if cs[0] == ".." then depth - 1 else if Plain(cs[0]) then depth + 1 else depth;
      if next < 0 {
        assert Ups(cs[..1]) > depth + Names(cs[..1]);
      } else {
        StaysInsideIff(cs[1..], next);
        if forall i :: 0 <= i <= |cs| ==> Ups(cs[..i]) <= depth + Names(cs[..i]) {
          forall j | 0 <= j <= |cs[1..]| ensures Ups(cs[1..][..j]) <= next + Names(cs[1..][..j]) {
            assert Ups(cs[..j + 1]) <= depth + Names(cs[..j + 1]);
          }
        }
        if forall j :: 0 <= j <= |cs[1..]| ==> Ups(cs[1..][..j]) <= next + Names(cs[1..][..j]) {
          forall i | 0 <= i <= |cs| ensures Ups(cs[..i]) <= depth + Names(cs[..i]) {
            assert i > 0 ==> Ups(cs[1..][..i - 1]) <= next + Names(cs[1..][..i - 1]);
          }
        }
      }
    }
  }

  /**
   An object has a path exactly if no part of it starts with a separator and none climbs above itself
   at any point.
   */
  lemma AcceptedIff(start: string, bucket: string, key: string)
    ensures NormalizedPath(start, bucket, key).Some? <==>
            forall part :: part in {start, bucket, key} ==> !("/" <= part) && NeverAbove(Parts(part))
  {
    forall part | part in {start, bucket, key} ensures PushAccepted(part) <==> !("/" <= part) && NeverAbove(Parts(part)) {
      StaysInsideIff(Parts(part), 0);
    }
  }

  // ---------------------------------------------------------------------------------------------
  // Keys in normal form.
  // ---------------------------------------------------------------------------------------------

  predicate NormalKey(key: string)
  {
    AllPlain(Parts(key))
  }

  /** A bucket name that is one plain component. */
  predicate NormalBucket(bucket: string)
  {
    NormalKey(bucket) && |Parts(bucket)| == 1
  }

  lemma NormalKeyResolves(key: string)
    requires NormalKey(key)
    ensures PushAccepted(key) && Resolved(key) == Parts(key)
  {
    StaysInsidePlain(Parts(key), 0);
    ResolvePlain(Parts(key), []);
    assert [] + Parts(key) == Parts(key);
    assert Plain(Parts(key)[0]);
  }

  /** Different normal keys, or different buckets, never share a path. */
  lemma {:induction false} NormalPathsAreInjective(start: string, b: string, k: string, b': string, k': string)
    requires PushAccepted(start)
    requires NormalBucket(b) && NormalBucket(b') && NormalKey(k) && NormalKey(k')
    requires NormalizedPath(start, b, k) == NormalizedPath(start, b', k')
    ensures b == b' && k == k'
  {
    NormalKeyResolves(b);
    NormalKeyResolves(b');
    NormalKeyResolves(k);
    NormalKeyResolves(k');
    var n := |Resolved(start)|;
    var path := NormalizedPath(start, b, k).value;
    assert path[n..n + 1] == Parts(b) == Parts(b');
    assert path[n + 1..] == Parts(k) == Parts(k');
    JoinSplit(b, '/');
    JoinSplit(b', '/');
    JoinSplit(k, '/');
    JoinSplit(k', '/');
  }

  // ---------------------------------------------------------------------------------------------
  // Ancestors.
  // ---------------------------------------------------------------------------------------------

  /** Drops trailing separators and trailing `.` components. */
  function TrimEnd(p: string): (t: string)
    ensures |t| <= |p| && t <= p
    ensures t != "" ==> t[|t| - 1] != '/'
    ensures p != "" && p[|p| - 1] == '/' ==> |t| < |p|
    ensures t == p || t + "/" <= p
  {
    var n := |p|;
    if n >= 1 && p[n - 1] == '/' then TrimEnd(p[..n - 1])
    else if n >= 2 && p[n - 1] == '.' && p[n - 2] == '/' then TrimEnd(p[..n - 1])
    else p
  }

  /** Drops the last name, keeping the separator in front of it. */
  function DropName(p: string): (t: string)
    ensures |t| <= |p| && t <= p
    ensures p != "" && p[|p| - 1] != '/' ==> |t| < |p|
    ensures t != "" ==> t[|t| - 1] == '/'
  {
    var n := |p|;
    if n == 0 || p[n - 1] == '/' then p else DropName(p[..n - 1])
  }

  function Parent(p: string): (t: string)
    ensures p != "" ==> |t| < |p|
    ensures t != "" ==> t + "/" <= p
  {
    var q := DropName(TrimEnd(p));
    var t := TrimEnd(q);
    assert t != "" ==> t + "/" <= q;
    t
  }

  /** The path itself, its parent, and so on; the empty path is filtered out. */
  function Ancestors(p: string): (r: seq<string>)
    decreases |p|
  {
    if p == "" then [] else [p] + Ancestors(Parent(p))
  }

  lemma {:induction false} DropNameLast(p: string, c: string)
    requires '/' !in c && (p == "" || p[|p| - 1] == '/')
    ensures DropName(p + c) == p
  {
    if c == "" {
      assert p + c == p;
    } else {
      var n := |c| - 1;
      assert c[n] in c;
      assert (p + c)[..|p + c| - 1] == p + c[..n];
      DropNameLast(p, c[..n]);
    }
  }

  /** On a key in normal form the parent is the key without its last component. */
  lemma {:induction false} NormalParent(cs: seq<string>)
    requires |cs| >= 1 && AllPlain(cs) && NoSep(cs, '/')
    ensures Unparts(cs) != ""
    ensures Parent(Unparts(cs)) == Unparts(cs[..|cs| - 1])
  {
    var n := |cs| - 1;
    var last := cs[n];
    NormalTrim(cs);
    if n == 0 {
      DropNameLast("", last);
      assert "" + last == last;
    } else {
      assert cs == cs[..n] + [last];
      JoinConcat(cs[..n], [last], '/');
      DropNameLast(Unparts(cs[..n]) + "/", last);
      var q := Unparts(cs[..n]) + "/";
      assert q[..|q| - 1] == Unparts(cs[..n]);
      NormalTrim(cs[..n]);
    }
  }

  lemma {:induction false} NormalTrim(cs: seq<string>)
    requires |cs| >= 1 && AllPlain(cs) && NoSep(cs, '/')
    ensures Unparts(cs) != "" && TrimEnd(Unparts(cs)) == Unparts(cs)
  {
    var n := |cs| - 1;
    var last := cs[n];
    assert last[|last| - 1] in last;
    if n > 0 {
      assert cs == cs[..n] + [last];
      JoinConcat(cs[..n], [last], '/');
    }
    if |last| > 1 {
      assert last[|last| - 2] in last;
    }
  }

  /** Lying below a directory as a string is lying below it component by component. */
  lemma {:induction false} BelowByComponents(cs: seq<string>, key: string)
    requires |cs| >= 1 && NoSep(cs, '/')
    ensures Unparts(cs) + "/" <= key <==> cs < Parts(key)
  {
    JoinSplit(key, '/');
    if Unparts(cs) + "/" <= key {
      var rest := key[|Unparts(cs)| + 1..];
      assert key == Unparts(cs) + ['/'] + rest;
      SplitPieces(rest, '/');
      JoinSplit(rest, '/');
      JoinConcat(cs, Parts(rest), '/');
      SplitJoin(cs + Parts(rest), '/');
    }
    if cs < Parts(key) {
      var rest := Parts(key)[|cs|..];
      assert Parts(key) == cs + rest;
      JoinConcat(cs, rest, '/');
    }
  }

  lemma NameStays(p: string, c: string)
    requires '/' !in c && c != "" && c != "."
    ensures TrimEnd(p + "/" + c) == p + "/" + c
  {
    var f, n := p + "/" + c, |c|;
    assert c[n - 1] in c && f[|f| - 1] == c[n - 1];
    if n == 1 {
      assert c == [c[0]];
    } else {
      assert c[n - 2] in c && f[|f| - 2] == c[n - 2];
    }
  }

  /** The parent of a key is the same if its last separator is doubled. */
  lemma ParentSkipsSeparators(p: string, c: string)
    requires '/' !in c && c != "" && c != "."
    ensures Parent(p + "//" + c) == Parent(p + "/" + c)
  {
    ParentIsTrimmed(p, c);
    ParentIsTrimmed(p + "/", c);
    SeparatorTrimmed(p);
    assert p + "//" + c == p + "/" + "/" + c;
  }

  /** And if a dot stands in front of its last name. */
  lemma ParentSkipsDots(p: string, c: string)
    requires '/' !in c && c != "" && c != "."
    ensures Parent(p + "/./" + c) == Parent(p + "/" + c)
  {
    ParentIsTrimmed(p, c);
    ParentIsTrimmed(p + "/.", c);
    DotTrimmed(p);
    assert p + "/./" + c == p + "/." + "/" + c;
  }

  lemma DotTrimmed(p: string)
    ensures TrimEnd(p + "/.") == TrimEnd(p)
  {
    assert (p + "/.")[..|p| + 1] == p + "/";
    SeparatorTrimmed(p);
  }

  lemma SeparatorTrimmed(p: string)
    ensures TrimEnd(p + "/") == TrimEnd(p)
  {
    assert (p + "/")[..|p|] == p;
  }

  lemma ParentIsTrimmed(p: string, c: string)
    requires '/' !in c && c != "" && c != "."
    ensures Parent(p + "/" + c) == TrimEnd(p)
  {
    NameStays(p, c);
    DropNameLast(p + "/", c);
    SeparatorTrimmed(p);
  }

  /** Trailing separators and dots do not count either: a key and the key with them have one parent. */
  lemma ParentIgnoresTail(p: string)
    ensures Parent(p + "/") == Parent(p) && Parent(p + "/.") == Parent(p)
  {
    SeparatorTrimmed(p);
    DotTrimmed(p);
  }
}
