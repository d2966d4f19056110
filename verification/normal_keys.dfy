/**
 Keys in normal form: the bucket is one plain component and so is every component of the key.  For
 them the ancestors that a trim walks are the directories of the tree, and what a trim does can be
 read off the table.
 */
module NormalKeys {
  import opened Options
  import opened Splitting
  import opened Paths
  import opened SqlLike
  import opened Database
  import opened Bridge
  import opened Tree

  predicate Normal(k: ObjectKey)
  {
    NormalBucket(k.bucket) && NormalKey(k.key)
  }

  function BucketPath(cfg: Config, bucket: string): Path
  {
    Resolved(cfg.prefix) + [bucket]
  }

  lemma NormalBucketPath(cfg: Config, k: ObjectKey)
    requires NormalBucket(k.bucket)
    ensures PushAccepted(k.bucket)
    ensures FilePath(cfg, k) == BucketPath(cfg, k.bucket) + Resolved(k.key)
  {
    NormalKeyResolves(k.bucket);
    JoinSplit(k.bucket, '/');
    assert Parts(k.bucket) == [k.bucket];
  }

  /** A normal object lives strictly below its bucket, under the components of its key. */
  lemma NormalPath(cfg: Config, k: ObjectKey)
    requires Normal(k)
    ensures FilePath(cfg, k) == BucketPath(cfg, k.bucket) + Parts(k.key)
    ensures BucketPath(cfg, k.bucket) < FilePath(cfg, k)
    ensures Accepted(cfg, k) <==> PushAccepted(cfg.prefix)
  {
    NormalBucketPath(cfg, k);
    NormalKeyResolves(k.key);
  }

  lemma BelowBucket(cfg: Config, b: string, cs: Path, b': string, cs': Path)
    ensures BucketPath(cfg, b) + cs <= BucketPath(cfg, b') + cs' <==> b == b' && cs <= cs'
  {
    var n := |Resolved(cfg.prefix)|;
    var p, q := BucketPath(cfg, b) + cs, BucketPath(cfg, b') + cs';
    assert p[n] == b && q[n] == b' && p[n + 1..] == cs && q[n + 1..] == cs';
    if p <= q {
      assert q[..|p|][n + 1..] == q[n + 1..][..|cs|];
    }
    if b == b' && cs <= cs' {
      assert cs' == cs + cs'[|cs|..];
      assert q == p + cs'[|cs|..];
    }
  }

  // ---------------------------------------------------------------------------------------------
  // Ancestors of normal keys.
  // ---------------------------------------------------------------------------------------------

  /** The key made of the first components. */
  function Upper(key: string, i: nat): string
    requires i <= |Parts(key)|
  {
    Unparts(Parts(key)[..i])
  }

  lemma UpperParts(key: string, i: nat)
    requires NormalKey(key) && 0 < i <= |Parts(key)|
    ensures Parts(Upper(key, i)) == Parts(key)[..i] && NormalKey(Upper(key, i))
  {
    SplitPieces(key, '/');
    SplitJoin(Parts(key)[..i], '/');
  }

  lemma UpperOfPrefix(key: string, shorter: string)
    requires Parts(shorter) <= Parts(key)
    ensures Upper(key, |Parts(shorter)|) == shorter
  {
    JoinSplit(shorter, '/');
    assert Parts(key)[..|Parts(shorter)|] == Parts(shorter);
  }

  lemma {:induction false} UpperPartsAreAncestors(cs: seq<string>, i: nat)
    requires AllPlain(cs) && NoSep(cs, '/') && 0 < i <= |cs|
    ensures Unparts(cs[..i]) in Ancestors(Unparts(cs))
  {
    NormalParent(cs);
    if i == |cs| {
      assert cs[..i] == cs;
    } else {
      var up := cs[..|cs| - 1];
      UpperPartsAreAncestors(up, i);
      assert up[..i] == cs[..i];
    }
  }

  lemma {:induction false} AncestorsAreUpperParts(cs: seq<string>, a: string) returns (i: nat)
    requires AllPlain(cs) && NoSep(cs, '/') && a in Ancestors(Unparts(cs))
    ensures 0 < i <= |cs| && a == Unparts(cs[..i])
  {
    NormalParent(cs);
    if a == Unparts(cs) {
      i := |cs|;
      assert cs[..i] == cs;
    } else {
      var up := cs[..|cs| - 1];
      i := AncestorsAreUpperParts(up, a);
      assert up[..i] == cs[..i];
    }
  }

  /** The ancestors are the upper keys, from the key itself up to its first component. */
  lemma AncestorsOfNormal(key: string, a: string)
    requires NormalKey(key)
    ensures a in Ancestors(key) <==> exists i :: 0 < i <= |Parts(key)| && a == Upper(key, i)
  {
    SplitPieces(key, '/');
    JoinSplit(key, '/');
    if a in Ancestors(key) {
      var i := AncestorsAreUpperParts(Parts(key), a);
      assert a == Upper(key, i);
    }
    if i :| 0 < i <= |Parts(key)| && a == Upper(key, i) {
      UpperPartsAreAncestors(Parts(key), i);
    }
  }

  lemma UpperIsAncestor(key: string, i: nat)
    requires NormalKey(key) && 0 < i <= |Parts(key)|
    ensures Upper(key, i) in Ancestors(key)
  {
    AncestorsOfNormal(key, Upper(key, i));
  }

  /** Among upper keys, being an ancestor is being shorter. */
  lemma UpperOrder(key: string, i: nat, j: nat)
    requires NormalKey(key) && 0 < i <= |Parts(key)| && 0 < j <= |Parts(key)|
    ensures Upper(key, j) in Ancestors(Upper(key, i)) <==> j <= i
  {
    UpperParts(key, i);
    UpperParts(key, j);
    AncestorsOfNormal(Upper(key, i), Upper(key, j));
    forall m | 0 < m <= i ensures Upper(key, j) == Upper(Upper(key, i), m) <==> j == m {
      UpperOfUpper(key, i, m);
      UpperParts(key, m);
      assert j != m ==> |Parts(key)[..j]| != |Parts(key)[..m]|;
    }
    assert |Parts(Upper(key, i))| == i;
    if j <= i {
      assert Upper(key, j) == Upper(Upper(key, i), j);
    }
  }

  lemma UpperOfUpper(key: string, i: nat, j: nat)
    requires NormalKey(key) && 0 < j <= i <= |Parts(key)|
    ensures |Parts(Upper(key, i))| == i && Upper(Upper(key, i), j) == Upper(key, j)
  {
    UpperParts(key, i);
    assert Parts(key)[..i][..j] == Parts(key)[..j];
  }

  // ---------------------------------------------------------------------------------------------
  // What a trim for a normal key does.
  // ---------------------------------------------------------------------------------------------

  function DirOf(cfg: Config, f: ObjectKey, i: nat): Path
    requires i <= |Parts(f.key)|
  {
    BucketPath(cfg, f.bucket) + Parts(f.key)[..i]
  }

  lemma DirPath(cfg: Config, f: ObjectKey, i: nat)
    requires Normal(f) && 0 < i <= |Parts(f.key)|
    ensures FilePath(cfg, ObjectKey(f.bucket, Upper(f.key, i))) == DirOf(cfg, f, i)
    ensures Accepted(cfg, ObjectKey(f.bucket, Upper(f.key, i))) <==> PushAccepted(cfg.prefix)
  {
    UpperParts(f.key, i);
    NormalPath(cfg, ObjectKey(f.bucket, Upper(f.key, i)));
  }

  /**
   The target is the directory of the shortest run of components under which nothing is found; all
   longer runs look empty too, all shorter ones do not.
   */
  lemma AnswerPath(rows: Rows, cfg: Config, f: ObjectKey) returns (j: nat)
    requires PushAccepted(cfg.prefix) && Normal(f)
    ensures j <= |Parts(f.key)|
    ensures TrimTarget(rows, cfg, f) == if j == 0 then None else Some(DirOf(cfg, f, j))
    ensures forall i :: 0 < i <= |Parts(f.key)| ==> (LooksEmpty(rows, f.bucket, Upper(f.key, i)) <==> 0 < j <= i)
  {
    var answer := ShallowestEmpty(rows, f.bucket, f.key);
    j := 0;
    if answer.Some? {
      AnswerIff(rows, f.bucket, f.key, answer.value);
      AncestorsOfNormal(f.key, answer.value);
      j :| 0 < j <= |Parts(f.key)| && answer.value == Upper(f.key, j);
      DirPath(cfg, f, j);
    }
    forall i | 0 < i <= |Parts(f.key)| ensures LooksEmpty(rows, f.bucket, Upper(f.key, i)) <==> 0 < j <= i {
      UpperIsAncestor(f.key, i);
      AnswerAboveIff(rows, f.bucket, f.key, Upper(f.key, i));
      if j > 0 {
        UpperOrder(f.key, i, j);
      }
    }
  }

  /**
   A trim clears the directory of a component prefix exactly when no live key of the bucket matches
   the pattern of that directory.  A wildcard in a key can therefore keep an empty directory.
   */
  lemma ClearsIff(rows: Rows, cfg: Config, f: ObjectKey, i: nat)
    requires PushAccepted(cfg.prefix) && Normal(f) && 0 < i <= |Parts(f.key)|
    ensures var target := TrimTarget(rows, cfg, f);
            (target.Some? && target.value <= DirOf(cfg, f, i))
            <==> forall k :: k in rows && k.bucket == f.bucket ==> !Like(Upper(f.key, i) + "/%", k.key)
  {
    var j := AnswerPath(rows, cfg, f);
    LooksEmptyMeans(rows, f.bucket, Upper(f.key, i));
    if j > 0 {
      BelowBucket(cfg, f.bucket, Parts(f.key)[..j], f.bucket, Parts(f.key)[..i]);
      assert j <= i ==> Parts(f.key)[..i][..j] == Parts(f.key)[..j];
    }
  }

  /** With normal buckets: which live objects a trim for any accepted key strands. */
  lemma StrandsIff(rows: Rows, cfg: Config, f: ObjectKey, k: ObjectKey)
    requires PushAccepted(cfg.prefix) && NormalBucket(f.bucket) && NormalBucket(k.bucket)
    ensures var target := TrimTarget(rows, cfg, f);
            (target.Some? && target.value <= FilePath(cfg, k))
            <==> k.bucket == f.bucket
                 && exists a :: a in Ancestors(f.key) && Topmost(rows, f.bucket, a)
                      && PushAccepted(a) && Resolved(a) <= Resolved(k.key)
  {
    TargetIff(rows, cfg, f, FilePath(cfg, k));
    NormalBucketPath(cfg, k);
    forall a ensures Accepted(cfg, ObjectKey(f.bucket, a)) <==> PushAccepted(a)
             ensures FilePath(cfg, ObjectKey(f.bucket, a)) <= FilePath(cfg, k) <==>
                     f.bucket == k.bucket && Resolved(a) <= Resolved(k.key) {
      NormalBucketPath(cfg, ObjectKey(f.bucket, a));
      BelowBucket(cfg, f.bucket, Resolved(a), k.bucket, Resolved(k.key));
    }
  }

  /** Among normal keys: only one on the path of the trimmed key whose pattern matches no live key. */
  lemma NormalStrandsIff(rows: Rows, cfg: Config, f: ObjectKey, k: ObjectKey)
    requires PushAccepted(cfg.prefix) && Normal(f) && Normal(k) && k in rows
    ensures var target := TrimTarget(rows, cfg, f);
            (target.Some? && target.value <= FilePath(cfg, k))
            <==> k.bucket == f.bucket && Parts(k.key) <= Parts(f.key)
                 && forall k' :: k' in rows && k'.bucket == k.bucket ==> !Like(k.key + "/%", k'.key)
  {
    var j := AnswerPath(rows, cfg, f);
    NormalPath(cfg, k);
    LooksEmptyMeans(rows, k.bucket, k.key);
    if j > 0 {
      BelowBucket(cfg, f.bucket, Parts(f.key)[..j], k.bucket, Parts(k.key));
    }
    if k.bucket == f.bucket && Parts(k.key) <= Parts(f.key) {
      UpperOfPrefix(f.key, k.key);
    }
    if j > 0 && k.bucket == f.bucket && Parts(f.key)[..j] <= Parts(k.key) {
      UpperParts(f.key, j);
      LooksEmptyIsSafe(rows, f.bucket, Upper(f.key, j), k);
      assert !(Parts(f.key)[..j] < Parts(k.key));
    }
  }

  // ---------------------------------------------------------------------------------------------
  // Normal keys guard themselves.
  // ---------------------------------------------------------------------------------------------

  /** A trim for a normal key threatens a normal object exactly when the object is on the key's path. */
  lemma NormalGuardedIff(cfg: Config, f: ObjectKey, k: ObjectKey)
    requires PushAccepted(cfg.prefix) && Normal(f) && Normal(k)
    ensures Guarded(cfg, f, k) <==> !(FilePath(cfg, k) <= FilePath(cfg, f))
  {
    NormalPath(cfg, f);
    NormalPath(cfg, k);
    BelowBucket(cfg, k.bucket, Parts(k.key), f.bucket, Parts(f.key));
    if FilePath(cfg, k) <= FilePath(cfg, f) {
      UpperOfPrefix(f.key, k.key);
      UpperIsAncestor(f.key, |Parts(k.key)|);
      NotBelowItself(k.key);
      assert k == ObjectKey(f.bucket, k.key);
    } else {
      forall a | a in Ancestors(f.key) && FilePath(cfg, ObjectKey(f.bucket, a)) <= FilePath(cfg, k)
        ensures f.bucket == k.bucket && Like(a + "/%", k.key)
      {
        NormalAncestorCounts(cfg, f, k, a);
      }
    }
  }

  lemma NormalAncestorCounts(cfg: Config, f: ObjectKey, k: ObjectKey, a: string)
    requires PushAccepted(cfg.prefix) && Normal(f) && Normal(k) && !(FilePath(cfg, k) <= FilePath(cfg, f))
    requires a in Ancestors(f.key) && FilePath(cfg, ObjectKey(f.bucket, a)) <= FilePath(cfg, k)
    ensures f.bucket == k.bucket && Like(a + "/%", k.key)
  {
    AncestorsOfNormal(f.key, a);
    var i :| 0 < i <= |Parts(f.key)| && a == Upper(f.key, i);
    UpperParts(f.key, i);
    DirPath(cfg, f, i);
    NormalPath(cfg, f);
    NormalPath(cfg, k);
    BelowBucket(cfg, f.bucket, Parts(a), k.bucket, Parts(k.key));
    BelowBucket(cfg, k.bucket, Parts(k.key), f.bucket, Parts(f.key));
    SplitPieces(a, '/');
    JoinSplit(a, '/');
    BelowByComponents(Parts(a), k.key);
    BelowMatches(a, k.key);
  }

  /** So normal objects are compatible exactly when neither is on the other's path. */
  lemma NormalCompatibleIff(cfg: Config, k: ObjectKey, k': ObjectKey)
    requires PushAccepted(cfg.prefix) && Normal(k) && Normal(k')
    ensures Compatible(cfg, k, k') <==> Apart(FilePath(cfg, k), FilePath(cfg, k'))
  {
    NormalGuardedIff(cfg, k, k');
    NormalGuardedIff(cfg, k', k);
  }
}
