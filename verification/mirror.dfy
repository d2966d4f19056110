/**
 The file tree mirrors the table.  For keys in normal form without SQL wildcards and ASCII capitals,
 on a healthy node, the files are exactly the live objects, and the only directories without a live
 object below them are those that a pending trim still accounts for.
 */
module Mirror {
  import opened Options
  import opened Splitting
  import opened Paths
  import opened SqlLike
  import opened IpfsNode
  import opened Database
  import opened Slots
  import opened Bridge
  import opened Pins
  import opened Tree
  import opened NormalKeys

  /** A directory strictly below a bucket. */
  predicate Deep(cfg: Config, d: Path)
  {
    |d| > |Resolved(cfg.prefix)| + 1
  }

  ghost predicate HoldsLive(rows: Rows, cfg: Config, d: Path)
  {
    exists k :: k in rows && d < FilePath(cfg, k)
  }

  /** A pending job that will look at, or remove, the directory. */
  predicate Accounts(cfg: Config, j: TrimJob, d: Path)
  {
    match j
    case Find(f) => d < FilePath(cfg, f)
    case Remove(_, p) => p <= d
  }

  ghost predicate AccountedFor(s: Core, cfg: Config, d: Path)
  {
    HoldsLive(s.rows, cfg, d) || exists j :: j in s.trims && Accounts(cfg, j, d)
  }

  ghost predicate FilesAreRows(s: Core, cfg: Config)
  {
    && (forall k :: k in s.rows ==> FilePath(cfg, k) in s.node.files && s.node.files[FilePath(cfg, k)] == s.rows[k].cid)
    && (forall p :: p in s.node.files ==> exists k :: k in s.rows && p == FilePath(cfg, k))
  }

  ghost predicate Closed(n: Node)
  {
    forall d, a :: d in n.dirs && a != [] && a < d ==> a in n.dirs
  }

  /** The keys that the mirror is promised for. */
  predicate Simple(k: ObjectKey)
  {
    Normal(k) && Literal(k.key)
  }

  /** A pending job is for a simple key, or points strictly below its bucket. */
  predicate SimpleJob(cfg: Config, j: TrimJob)
  {
    match j
    case Find(f) => Simple(f)
    case Remove(b, p) => BucketPath(cfg, b) < p
  }

  ghost predicate AllSimple(s: Core, cfg: Config)
  {
    && PushAccepted(cfg.prefix)
    && (forall k :: k in s.rows ==> Simple(k))
    && (forall j :: j in s.trims ==> SimpleJob(cfg, j))
  }

  ghost predicate DirsAccounted(s: Core, cfg: Config)
  {
    forall d :: d in s.node.dirs && Deep(cfg, d) ==> AccountedFor(s, cfg, d)
  }

  ghost predicate Mirrors(s: Core, cfg: Config)
  {
    && cfg.trimEmptyFolders
    && Anchored(s, cfg) && PinSafe(s) && AllSimple(s, cfg)
    && FilesAreRows(s, cfg) && Closed(s.node) && DirsAccounted(s, cfg)
  }

  // ---------------------------------------------------------------------------------------------
  // Put.
  // ---------------------------------------------------------------------------------------------

  /** A directory that waits for a trim of a simple key is not where a put may go. */
  lemma PutIsNoDirectory(s: Core, cfg: Config, k: ObjectKey)
    requires Mirrors(s, cfg) && MayPut(s, cfg, k) && Simple(k)
    ensures FilePath(cfg, k) !in s.node.dirs
  {
    var p := FilePath(cfg, k);
    NormalPath(cfg, k);
    forall live | live in s.rows ensures !(p < FilePath(cfg, live)) {
      assert live != k ==> Compatible(cfg, k, live);
    }
    forall j | j in s.trims ensures !Accounts(cfg, j, p) {
      assert Spares(cfg, j, k) && SimpleJob(cfg, j);
      if j.Find? {
        NormalGuardedIff(cfg, j.key, k);
      }
    }
    assert !AccountedFor(s, cfg, p);
  }

  lemma PutCanLink(s: Core, cfg: Config, k: ObjectKey)
    requires Mirrors(s, cfg) && MayPut(s, cfg, k) && Simple(k)
    ensures CanLink(s.node, FilePath(cfg, k))
  {
    NormalPath(cfg, k);
    PutIsNoDirectory(s, cfg, k);
    forall p | p in s.node.files ensures !(p < FilePath(cfg, k)) {
      var live :| live in s.rows && p == FilePath(cfg, live);
      assert live != k ==> Compatible(cfg, k, live);
    }
  }

  lemma HealthyPut(s: Core, cfg: Config, k: ObjectKey, header: Option<string>, body: Bytes)
    requires Accepted(cfg, k) && CanLink(s.node, FilePath(cfg, k))
    ensures var (s', st) := StoreObject(s, cfg, k, header, body, HEALTHY_PUT);
            var p := FilePath(cfg, k);
            && st.Ok200?
            && s'.rows == s.rows[k := Row(CidOf(body), |body|, ContentTypeOf(cfg, k.key, header))]
            && s'.trims == s.trims
            && s'.node.files == s.node.files[p := CidOf(body)]
            && s'.node.dirs == s.node.dirs + Above(p)
  {
  }

  lemma PutMirrors(s: Core, cfg: Config, k: ObjectKey, header: Option<string>, body: Bytes)
    requires Mirrors(s, cfg) && MayPut(s, cfg, k) && Simple(k)
    ensures var (s', st) := StoreObject(s, cfg, k, header, body, HEALTHY_PUT);
            st.Ok200? && Mirrors(s', cfg)
  {
    NormalPath(cfg, k);
    PutCanLink(s, cfg, k);
    HealthyPut(s, cfg, k, header, body);
    StoreKeepsAnchored(s, cfg, k, header, body, HEALTHY_PUT);
    StoreKeepsPins(s, cfg, k, header, body, HEALTHY_PUT);
    var s' := StoreObject(s, cfg, k, header, body, HEALTHY_PUT).0;
    forall k' | k' in s.rows && k' != k ensures FilePath(cfg, k') != FilePath(cfg, k) {
      assert Compatible(cfg, k, k');
    }
    PutFiles(s, s', cfg, k);
    PutDirs(s, s', cfg, k);
  }

  lemma PutDirs(s: Core, s': Core, cfg: Config, k: ObjectKey)
    requires DirsAccounted(s, cfg) && Closed(s.node) && k in s'.rows
    requires s.rows.Keys <= s'.rows.Keys && s'.trims == s.trims
    requires s'.node.dirs == s.node.dirs + Above(FilePath(cfg, k))
    ensures DirsAccounted(s', cfg) && Closed(s'.node)
  {
    forall d | d in s'.node.dirs && Deep(cfg, d) ensures AccountedFor(s', cfg, d) {
      if d in s.node.dirs {
        StillAccounted(s, s', cfg, d);
      } else {
        assert k in s'.rows && d < FilePath(cfg, k);
      }
    }
  }

  lemma PutFiles(s: Core, s': Core, cfg: Config, k: ObjectKey)
    requires FilesAreRows(s, cfg) && k in s'.rows
    requires forall k' :: k' in s.rows && k' != k ==> FilePath(cfg, k') != FilePath(cfg, k)
    requires s'.rows == s.rows[k := s'.rows[k]]
    requires s'.node.files == s.node.files[FilePath(cfg, k) := s'.rows[k].cid]
    ensures FilesAreRows(s', cfg)
  {
    forall k' | k' in s'.rows
      ensures FilePath(cfg, k') in s'.node.files && s'.node.files[FilePath(cfg, k')] == s'.rows[k'].cid
    {
      var p := FilePath(cfg, k');
      assert k' != k ==> k' in s.rows && p in s.node.files && s.node.files[p] == s.rows[k'].cid;
    }
    forall p | p in s'.node.files ensures exists k' :: k' in s'.rows && p == FilePath(cfg, k') {
      if p != FilePath(cfg, k) {
        var k' :| k' in s.rows && p == FilePath(cfg, k');
        assert k' in s'.rows;
      } else {
        assert k in s'.rows;
      }
    }
  }

  lemma StillAccounted(s: Core, s': Core, cfg: Config, d: Path)
    requires AccountedFor(s, cfg, d)
    requires s.rows.Keys <= s'.rows.Keys && s'.trims == s.trims
    ensures AccountedFor(s', cfg, d)
  {
    if HoldsLive(s.rows, cfg, d) {
      var k :| k in s.rows && d < FilePath(cfg, k);
      assert k in s'.rows;
    }
  }

  // ---------------------------------------------------------------------------------------------
  // Delete.
  // ---------------------------------------------------------------------------------------------

  lemma DeleteMirrors(s: Core, cfg: Config, k: ObjectKey)
    requires Mirrors(s, cfg)
    ensures var (s', st) := RemoveObject(s, cfg, k, HEALTHY_DELETE);
            Mirrors(s', cfg) && (if k in s.rows then st.NoContent204? else st.NotFound404?)
  {
    var s' := RemoveObject(s, cfg, k, HEALTHY_DELETE).0;
    DeleteKeepsAnchored(s, cfg, k);
    if k in s.rows {
      HealthyDelete(s, cfg, k);
      forall k' | k' in s.rows && k' != k ensures !(FilePath(cfg, k) <= FilePath(cfg, k')) {
        assert Compatible(cfg, k, k');
      }
      DeleteFiles(s, s', cfg, k);
      DeleteDirs(s, s', cfg, k);
      assert AllSimple(s', cfg);
    }
  }

  lemma DeleteDirs(s: Core, s': Core, cfg: Config, k: ObjectKey)
    requires DirsAccounted(s, cfg) && Closed(s.node)
    requires s'.rows == s.rows - {k} && s'.trims == s.trims + multiset{Find(k)}
    requires s'.node.dirs == set d | d in s.node.dirs && !(FilePath(cfg, k) <= d)
    ensures DirsAccounted(s', cfg) && Closed(s'.node)
  {
    forall d | d in s'.node.dirs && Deep(cfg, d) ensures AccountedFor(s', cfg, d) {
      DeleteAccounts(s, s', cfg, k, d);
    }
  }

  lemma DeleteFiles(s: Core, s': Core, cfg: Config, k: ObjectKey)
    requires FilesAreRows(s, cfg) && k in s.rows && s'.rows == s.rows - {k}
    requires forall k' :: k' in s.rows && k' != k ==> !(FilePath(cfg, k) <= FilePath(cfg, k'))
    requires s'.node.files == map p | p in s.node.files && !(FilePath(cfg, k) <= p) :: s.node.files[p]
    ensures FilesAreRows(s', cfg)
  {
    forall k' | k' in s'.rows
      ensures FilePath(cfg, k') in s'.node.files && s'.node.files[FilePath(cfg, k')] == s'.rows[k'].cid
    {
      OtherFileStays(s, s', cfg, k, k');
    }
    forall p | p in s'.node.files ensures exists k' :: k' in s'.rows && p == FilePath(cfg, k') {
      FileLeftHasRow(s, s', cfg, k, p);
    }
  }

  lemma FileLeftHasRow(s: Core, s': Core, cfg: Config, k: ObjectKey, p: Path)
    requires FilesAreRows(s, cfg) && s'.rows == s.rows - {k} && p in s.node.files && !(FilePath(cfg, k) <= p)
    ensures exists k' :: k' in s'.rows && p == FilePath(cfg, k')
  {
    var k' :| k' in s.rows && p == FilePath(cfg, k');
    assert k' != k;
    assert k' in s'.rows;
  }

  lemma OtherFileStays(s: Core, s': Core, cfg: Config, k: ObjectKey, other: ObjectKey)
    requires FilesAreRows(s, cfg) && other in s.rows && !(FilePath(cfg, k) <= FilePath(cfg, other))
    requires s'.node.files == map p | p in s.node.files && !(FilePath(cfg, k) <= p) :: s.node.files[p]
    ensures FilePath(cfg, other) in s'.node.files && s'.node.files[FilePath(cfg, other)] == s.rows[other].cid
  {
  }

  lemma DeleteAccounts(s: Core, s': Core, cfg: Config, k: ObjectKey, d: Path)
    requires AccountedFor(s, cfg, d)
    requires s'.rows == s.rows - {k} && s'.trims == s.trims + multiset{Find(k)}
    ensures AccountedFor(s', cfg, d)
  {
    if k' :| k' in s.rows && d < FilePath(cfg, k') {
      if k' == k {
        assert Find(k) in s'.trims && Accounts(cfg, Find(k), d);
      } else {
        assert k' in s'.rows;
      }
    } else {
      var j :| j in s.trims && Accounts(cfg, j, d);
      assert j in s'.trims;
    }
  }

  // ---------------------------------------------------------------------------------------------
  // Trim.
  // ---------------------------------------------------------------------------------------------

  /** On simple keys something found under a name is a live object in that directory. */
  lemma FoundMeansLive(s: Core, cfg: Config, bucket: string, a: string)
    requires AllSimple(s, cfg) && NormalKey(a) && Literal(a) && !LooksEmpty(s.rows, bucket, a)
    ensures HoldsLive(s.rows, cfg, BucketPath(cfg, bucket) + Parts(a))
  {
    LooksEmptyMeans(s.rows, bucket, a);
    var k :| k in s.rows && k.bucket == bucket && Like(a + "/%", k.key);
    LiteralMatchesBelow(a, k.key);
    SplitPieces(a, '/');
    JoinSplit(a, '/');
    BelowByComponents(Parts(a), k.key);
    NormalPath(cfg, k);
    BelowBucket(cfg, bucket, Parts(a), k.bucket, Parts(k.key));
    assert BucketPath(cfg, bucket) + Parts(a) != FilePath(cfg, k);
  }

  lemma UpperIsLiteral(key: string, i: nat)
    requires 0 < i <= |Parts(key)| && Literal(key)
    ensures Literal(Upper(key, i))
  {
    var cs := Parts(key);
    JoinSplit(key, '/');
    if i < |cs| {
      assert cs == cs[..i] + cs[i..];
      JoinConcat(cs[..i], cs[i..], '/');
    } else {
      assert cs[..i] == cs;
    }
  }

  /**
   Every directory on the way to the trimmed key either still holds a live object or lies in the
   directory that the query answers.
   */
  lemma QueryAccounts(s: Core, cfg: Config, f: ObjectKey, d: Path)
    requires Simple(f) && AllSimple(s, cfg) && Deep(cfg, d) && d < FilePath(cfg, f)
    ensures HoldsLive(s.rows, cfg, d)
            || (TrimTarget(s.rows, cfg, f).Some? && TrimTarget(s.rows, cfg, f).value <= d)
  {
    NormalPath(cfg, f);
    var i := OnTheWay(cfg, f, d);
    ClearsIff(s.rows, cfg, f, i);
    LooksEmptyMeans(s.rows, f.bucket, Upper(f.key, i));
    if !LooksEmpty(s.rows, f.bucket, Upper(f.key, i)) {
      UpperParts(f.key, i);
      UpperIsLiteral(f.key, i);
      FoundMeansLive(s, cfg, f.bucket, Upper(f.key, i));
    }
  }

  /** A deep directory above a file is its bucket followed by some of its components. */
  lemma OnTheWay(cfg: Config, f: ObjectKey, d: Path) returns (i: nat)
    requires Normal(f) && Deep(cfg, d) && d < FilePath(cfg, f)
    ensures 0 < i <= |Parts(f.key)| && d == DirOf(cfg, f, i)
  {
    NormalPath(cfg, f);
    i := |d| - |BucketPath(cfg, f.bucket)|;
    assert d == FilePath(cfg, f)[..|d|];
  }

  /** What the query of a pending trim changes, on a healthy database. */
  lemma HealthyFind(s: Core, cfg: Config, f: ObjectKey)
    requires Find(f) in s.trims
    ensures var target := TrimTarget(s.rows, cfg, f);
            RunTrim(s, cfg, Find(f), HEALTHY_TRIM) ==
            s.(trims := s.trims - multiset{Find(f)}
                        + if target.Some? then multiset{Remove(f.bucket, target.value)} else multiset{})
  {
    EarlyExitIsExact(s.rows, f.bucket, f.key, None);
    var left := s.trims - multiset{Find(f)};
    assert left + multiset{} == left;
  }

  lemma FindMirrors(s: Core, cfg: Config, f: ObjectKey)
    requires Mirrors(s, cfg)
    ensures Mirrors(RunTrim(s, cfg, Find(f), HEALTHY_TRIM), cfg)
  {
    if Find(f) in s.trims {
      assert SimpleJob(cfg, Find(f));
      HealthyFind(s, cfg, f);
      TrimKeepsAnchored(s, cfg, Find(f), HEALTHY_TRIM);
      TargetIsDeep(s.rows, cfg, f);
      var s' := RunTrim(s, cfg, Find(f), HEALTHY_TRIM);
      forall d | d in s'.node.dirs && Deep(cfg, d) ensures AccountedFor(s', cfg, d) {
        FindAccounts(s, cfg, f, d);
      }
    }
  }

  lemma TargetIsDeep(rows: Rows, cfg: Config, f: ObjectKey)
    requires PushAccepted(cfg.prefix) && Normal(f)
    ensures var target := TrimTarget(rows, cfg, f);
            target.Some? ==> BucketPath(cfg, f.bucket) < target.value
  {
    var j := AnswerPath(rows, cfg, f);
  }

  lemma FindAccounts(s: Core, cfg: Config, f: ObjectKey, d: Path)
    requires Mirrors(s, cfg) && Find(f) in s.trims && d in s.node.dirs && Deep(cfg, d)
    ensures AccountedFor(RunTrim(s, cfg, Find(f), HEALTHY_TRIM), cfg, d)
  {
    assert AccountedFor(s, cfg, d) && SimpleJob(cfg, Find(f));
    HealthyFind(s, cfg, f);
    var s' := RunTrim(s, cfg, Find(f), HEALTHY_TRIM);
    if !HoldsLive(s.rows, cfg, d) {
      var j :| j in s.trims && Accounts(cfg, j, d);
      if j == Find(f) {
        QueryAccounts(s, cfg, f, d);
        var p := TrimTarget(s.rows, cfg, f).value;
        assert Remove(f.bucket, p) in s'.trims && Accounts(cfg, Remove(f.bucket, p), d);
      } else {
        assert j in s'.trims;
      }
    }
  }

  lemma NothingBelowAbsent(n: Node, path: Path)
    requires Closed(n) && path != [] && path !in n.dirs
    ensures forall d :: d in n.dirs ==> !(path <= d)
  {
    forall d | d in n.dirs ensures !(path <= d) {
      assert path <= d ==> path == d || path < d;
    }
  }

  lemma RemoveMirrors(s: Core, cfg: Config, bucket: string, path: Path)
    requires Mirrors(s, cfg)
    ensures Mirrors(RunTrim(s, cfg, Remove(bucket, path), HEALTHY_TRIM), cfg)
  {
    var job := Remove(bucket, path);
    if job in s.trims {
      var s' := RunTrim(s, cfg, job, HEALTHY_TRIM);
      TrimKeepsAnchored(s, cfg, job, HEALTHY_TRIM);
      TrimKeepsContent(s, cfg, job, HEALTHY_TRIM);
      if path !in s.node.dirs {
        NothingBelowAbsent(s.node, path);
      }
      forall d | d in s'.node.dirs && Deep(cfg, d) ensures AccountedFor(s', cfg, d) {
        assert AccountedFor(s, cfg, d);
        if !HoldsLive(s.rows, cfg, d) {
          var j :| j in s.trims && Accounts(cfg, j, d);
          assert j != job && j in s'.trims;
        }
      }
    }
  }

  // ---------------------------------------------------------------------------------------------
  // Runs.
  // ---------------------------------------------------------------------------------------------

  /** A healthy event that puts, if it puts, under a simple key apart from what is live or pending. */
  ghost predicate Tidy(s: State, cfg: Config, e: Event)
  {
    && Healthy(e)
    && (e.Put? && PartParams(e.req.partNumber, e.req.uploadId).None? ==>
          MayPut(s.core, cfg, e.req.key) && Simple(e.req.key))
    && (e.Complete? && e.id in s.uploads ==> MayPut(s.core, cfg, e.ckey) && Simple(e.ckey))
  }

  ghost predicate TidyRun(cfg: Config, es: seq<Event>)
  {
    es != [] ==> TidyRun(cfg, es[..|es| - 1]) && Tidy(Run(cfg, es[..|es| - 1]), cfg, es[|es| - 1])
  }

  /** Pins and blocks play no part in the mirror beyond being safe. */
  lemma SameTree(s: Core, s': Core, cfg: Config)
    requires Mirrors(s, cfg) && PinSafe(s')
    requires s'.rows == s.rows && s'.trims == s.trims && s'.node.files == s.node.files && s'.node.dirs == s.node.dirs
    ensures Mirrors(s', cfg)
  {
    SameFiles(s, s', cfg);
    assert FilesAreRows(s', cfg) && Closed(s'.node) && AllSimple(s', cfg);
    forall d | d in s'.node.dirs && Deep(cfg, d) ensures AccountedFor(s', cfg, d) {
      StillAccounted(s, s', cfg, d);
    }
  }

  lemma OrphanMirrors(s: Core, cfg: Config, cid: Cid)
    requires Mirrors(s, cfg)
    ensures Mirrors(RunUnpin(s, cid, HEALTHY_ORPHAN), cfg)
  {
    UnpinTaskKeepsPins(s, cid, HEALTHY_ORPHAN);
    UnpinKeepsTree(s, cid, HEALTHY_ORPHAN);
    SameTree(s, RunUnpin(s, cid, HEALTHY_ORPHAN), cfg);
  }

  lemma StepMirrors(s: State, cfg: Config, e: Event)
    requires Mirrors(s.core, cfg) && Tidy(s, cfg, e)
    ensures Mirrors(Step(s, cfg, e).0.core, cfg)
    ensures !Step(s, cfg, e).1.Error500?
  {
    match e {
      case Put(req, f) =>
        if PartParams(req.partNumber, req.uploadId).None? {
          PutMirrors(s.core, cfg, req.key, req.header, req.body);
        }
      case Delete(k, id, f) =>
        if id.None? {
          DeleteMirrors(s.core, cfg, k);
        }
      case Create(id) =>
      case Complete(k, id, f) =>
        if id in s.uploads {
          PutMirrors(s.core, cfg, k, None, AssembledBody(s.uploads[id]));
        }
      case TaskUnpin(cid, f) => OrphanMirrors(s.core, cfg, cid);
      case TaskTrim(job, f) =>
        match job {
          case Find(k) => FindMirrors(s.core, cfg, k);
          case Remove(b, p) => RemoveMirrors(s.core, cfg, b, p);
        }
      case Gc(doomed) => SameTree(s.core, Step(s, cfg, e).0.core, cfg);
    }
  }

  lemma {:induction false} TidyRunMirrors(cfg: Config, es: seq<Event>)
    requires cfg.trimEmptyFolders && PushAccepted(cfg.prefix) && TidyRun(cfg, es)
    ensures Mirrors(Run(cfg, es).core, cfg)
  {
    if es == [] {
    } else {
      TidyRunMirrors(cfg, es[..|es| - 1]);
      StepMirrors(Run(cfg, es[..|es| - 1]), cfg, es[|es| - 1]);
    }
  }

  /** In tidy histories every put can be linked, so they leave no pin behind either. */
  lemma {:induction false} TidyRunIsClean(cfg: Config, es: seq<Event>)
    requires cfg.trimEmptyFolders && PushAccepted(cfg.prefix) && TidyRun(cfg, es)
    ensures CleanRun(cfg, es)
  {
    if es == [] {
    } else {
      var e, s := es[|es| - 1], Run(cfg, es[..|es| - 1]);
      TidyRunIsClean(cfg, es[..|es| - 1]);
      TidyRunMirrors(cfg, es[..|es| - 1]);
      if e.Put? && PartParams(e.req.partNumber, e.req.uploadId).None? {
        PutCanLink(s.core, cfg, e.req.key);
      } else if e.Complete? && e.id in s.uploads {
        PutCanLink(s.core, cfg, e.ckey);
      }
    }
  }

  predicate PendingIn(bucket: string, j: TrimJob)
  {
    match j
    case Find(f) => f.bucket == bucket
    case Remove(b, _) => b == bucket
  }

  ghost predicate NothingPending(s: Core, bucket: string)
  {
    forall j :: j in s.trims ==> !PendingIn(bucket, j)
  }

  /** A job accounts for directories of its own bucket only. */
  lemma AccountsInItsBucket(cfg: Config, j: TrimJob, bucket: string, d: Path)
    requires SimpleJob(cfg, j) && Accounts(cfg, j, d) && BucketPath(cfg, bucket) < d
    ensures PendingIn(bucket, j)
  {
    var n := |Resolved(cfg.prefix)|;
    assert d[n] == BucketPath(cfg, bucket)[n];
    match j {
      case Find(f) =>
        NormalPath(cfg, f);
        assert FilePath(cfg, f)[n] == BucketPath(cfg, f.bucket)[n];
      case Remove(b, p) => assert p[n] == BucketPath(cfg, b)[n];
    }
  }

  /**
   After every tidy history the files are exactly the live objects with their identifiers, and once
   no trim is pending for a bucket every directory strictly below that bucket holds a live object.
   */
  lemma {:induction false} TreeMirrorsTable(cfg: Config, es: seq<Event>)
    requires cfg.trimEmptyFolders && PushAccepted(cfg.prefix) && TidyRun(cfg, es)
    ensures var s := Run(cfg, es).core;
            && (forall k :: k in s.rows ==> FilePath(cfg, k) in s.node.files && s.node.files[FilePath(cfg, k)] == s.rows[k].cid)
            && (forall p :: p in s.node.files ==> exists k :: k in s.rows && p == FilePath(cfg, k))
    ensures var s := Run(cfg, es).core;
            forall bucket, d | NothingPending(s, bucket) && d in s.node.dirs && BucketPath(cfg, bucket) < d ::
              HoldsLive(s.rows, cfg, d)
  {
    TidyRunMirrors(cfg, es);
    var s := Run(cfg, es).core;
    forall bucket, d | NothingPending(s, bucket) && d in s.node.dirs && BucketPath(cfg, bucket) < d
      ensures HoldsLive(s.rows, cfg, d)
    {
      assert AccountedFor(s, cfg, d);
      if j :| j in s.trims && Accounts(cfg, j, d) {
        AccountsInItsBucket(cfg, j, bucket, d);
      }
    }
  }
}
