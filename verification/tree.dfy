/**
 The file tree under puts, deletes and trims, for every pair of bucket and key that the checked push
 accepts.  A trim walks the ancestors of a key as text, while the tree knows resolved paths; where the
 two disagree a trim can take a live file.  The condition under which it does is exact, and runs that
 stay clear of it keep every live object in the tree.
 */
module Tree {
  import opened Options
  import opened Splitting
  import opened Paths
  import opened SqlLike
  import opened IpfsNode
  import opened Database
  import opened Slots
  import opened Bridge
  import opened Pins

  predicate Accepted(cfg: Config, k: ObjectKey)
  {
    PathOf(cfg, k).Some?
  }

  /** Where an accepted object lives in the tree. */
  function FilePath(cfg: Config, k: ObjectKey): Path
  {
    Resolved(cfg.prefix) + Resolved(k.bucket) + Resolved(k.key)
  }

  predicate Apart(p: Path, q: Path)
  {
    !(p <= q) && !(q <= p)
  }

  // ---------------------------------------------------------------------------------------------
  // Which files a trim sets out to remove.
  // ---------------------------------------------------------------------------------------------

  /** The tree path that a trim for `f` sets out to remove. */
  function TrimTarget(rows: Rows, cfg: Config, f: ObjectKey): Option<Path>
  {
    var r := ShallowestEmpty(rows, f.bucket, f.key);
    if r.None? then None else NormalizedPath(cfg.prefix, f.bucket, r.value)
  }

  /** The ancestor is the one the query stops at. */
  predicate Topmost(rows: Rows, bucket: string, a: string)
  {
    LooksEmpty(rows, bucket, a) && (Parent(a) == "" || !LooksEmpty(rows, bucket, Parent(a)))
  }

  /** A trim's target lies at or above a path exactly when the topmost empty ancestor resolves there. */
  lemma TargetIff(rows: Rows, cfg: Config, f: ObjectKey, p: Path)
    ensures var target := TrimTarget(rows, cfg, f);
            (target.Some? && target.value <= p)
            <==> exists a :: a in Ancestors(f.key) && Topmost(rows, f.bucket, a)
                   && Accepted(cfg, ObjectKey(f.bucket, a)) && FilePath(cfg, ObjectKey(f.bucket, a)) <= p
  {
    var answer := ShallowestEmpty(rows, f.bucket, f.key);
    if answer.Some? {
      AnswerIff(rows, f.bucket, f.key, answer.value);
    }
    forall a | a in Ancestors(f.key) && Topmost(rows, f.bucket, a) ensures answer == Some(a) {
      AnswerIff(rows, f.bucket, f.key, a);
    }
  }

  /** A directory that looks empty has no live key literally below it, whatever its name holds. */
  lemma LooksEmptyIsSafe(rows: Rows, bucket: string, a: string, k: ObjectKey)
    requires LooksEmpty(rows, bucket, a) && k in rows && k.bucket == bucket
    ensures !(a + "/" <= k.key) && !(Parts(a) < Parts(k.key))
  {
    LooksEmptyMeans(rows, bucket, a);
    JoinSplit(a, '/');
    SplitPieces(a, '/');
    BelowByComponents(Parts(a), k.key);
    if a + "/" <= k.key {
      BelowMatches(a, k.key);
    }
  }

  // ---------------------------------------------------------------------------------------------
  // What keeps live objects in the tree.
  // ---------------------------------------------------------------------------------------------

  /** Every ancestor of `f` that resolves to a path at or above `k` counts `k`. */
  predicate Guarded(cfg: Config, f: ObjectKey, k: ObjectKey)
  {
    forall a :: a in Ancestors(f.key) && Accepted(cfg, ObjectKey(f.bucket, a))
                && FilePath(cfg, ObjectKey(f.bucket, a)) <= FilePath(cfg, k)
      ==> f.bucket == k.bucket && Like(a + "/%", k.key)
  }

  /** Two objects that neither share a path nor can be trimmed away on account of each other. */
  predicate Compatible(cfg: Config, k: ObjectKey, k': ObjectKey)
  {
    Apart(FilePath(cfg, k), FilePath(cfg, k')) && Guarded(cfg, k, k') && Guarded(cfg, k', k)
  }

  /** A pending trim will not take the file of `k` while `k` is live. */
  predicate Spares(cfg: Config, j: TrimJob, k: ObjectKey)
  {
    match j
    case Find(f) => Guarded(cfg, f, k)
    case Remove(_, p) => !(p <= FilePath(cfg, k))
  }

  /** Every live object has its file, any two are compatible, and no pending trim is after any of them. */
  ghost predicate Anchored(s: Core, cfg: Config)
  {
    && (forall k :: k in s.rows ==> Accepted(cfg, k) && FilePath(cfg, k) != [] && FilePath(cfg, k) in s.node.files)
    && (forall k, k' :: k in s.rows && k' in s.rows && k != k' ==> Compatible(cfg, k, k'))
    && (forall j, k :: j in s.trims && k in s.rows ==> Spares(cfg, j, k))
  }

  /** Running the query of a guarded trim yields a removal that points at nothing live. */
  lemma FoundDirectoryIsSafe(rows: Rows, cfg: Config, f: ObjectKey, k: ObjectKey)
    requires k in rows && Guarded(cfg, f, k) && TrimTarget(rows, cfg, f).Some?
    ensures Spares(cfg, Remove(f.bucket, TrimTarget(rows, cfg, f).value), k)
  {
    TargetIff(rows, cfg, f, FilePath(cfg, k));
    if a :| a in Ancestors(f.key) && Topmost(rows, f.bucket, a)
            && Accepted(cfg, ObjectKey(f.bucket, a)) && FilePath(cfg, ObjectKey(f.bucket, a)) <= FilePath(cfg, k) {
      LooksEmptyMeans(rows, f.bucket, a);
    }
  }

  lemma UnlinkSpares(s: Core, cfg: Config, path: Path, reply: Reply)
    requires forall k :: k in s.rows ==> FilePath(cfg, k) in s.node.files && !(path <= FilePath(cfg, k))
    ensures var n := Unlink(s.node, path, reply).0;
            forall k :: k in s.rows ==>
              FilePath(cfg, k) in n.files && n.files[FilePath(cfg, k)] == s.node.files[FilePath(cfg, k)]
  {
  }

  /** A trim in any phase, with any failures, leaves all rows and all live files as they are. */
  lemma TrimKeepsAnchored(s: Core, cfg: Config, job: TrimJob, f: TrimFaults)
    requires Anchored(s, cfg)
    ensures var s' := RunTrim(s, cfg, job, f);
            && Anchored(s', cfg) && s'.rows == s.rows
            && forall k :: k in s.rows ==> s'.node.files[FilePath(cfg, k)] == s.node.files[FilePath(cfg, k)]
  {
    if job in s.trims {
      assert forall k :: k in s.rows ==> Spares(cfg, job, k);
      match job {
        case Find(k) => FindLeaves(s, cfg, k, f);
        case Remove(_, path) => UnlinkSpares(s, cfg, path, f.unlink);
      }
    }
  }

  /** A query changes no more than the pending trims, and what it adds is as harmless as what it answers. */
  lemma FindLeaves(s: Core, cfg: Config, k: ObjectKey, f: TrimFaults)
    requires Find(k) in s.trims && forall live :: live in s.rows ==> Guarded(cfg, k, live)
    ensures var s' := RunTrim(s, cfg, Find(k), f);
            && s'.rows == s.rows && s'.node == s.node
            && forall j, live :: j in s'.trims && live in s.rows ==> j in s.trims || Spares(cfg, j, live)
  {
    EarlyExitIsExact(s.rows, k.bucket, k.key, None);
    FailingWalk(s.rows, k.bucket, k.key, f.failAt, None);
    var target := TrimTarget(s.rows, cfg, k);
    if target.Some? {
      forall live | live in s.rows ensures Spares(cfg, Remove(k.bucket, target.value), live) {
        FoundDirectoryIsSafe(s.rows, cfg, k, live);
      }
    }
  }

  /** A healthy delete of a live key: what is left of the table, the tree and the tasks. */
  lemma HealthyDelete(s: Core, cfg: Config, k: ObjectKey)
    requires PinSafe(s) && k in s.rows && Accepted(cfg, k) && FilePath(cfg, k) != [] && Exists(s.node, FilePath(cfg, k))
    ensures var (s', st) := RemoveObject(s, cfg, k, HEALTHY_DELETE);
            && st.NoContent204?
            && s'.rows == s.rows - {k}
            && s'.trims == (if cfg.trimEmptyFolders then s.trims + multiset{Find(k)} else s.trims)
            && s'.node.files == (map p | p in s.node.files && !(FilePath(cfg, k) <= p) :: s.node.files[p])
            && s'.node.dirs == set d | d in s.node.dirs && !(FilePath(cfg, k) <= d)
  {
    var node := Unlink(s.node, FilePath(cfg, k), Done).0;
    HealthyOrphanSucceeds(s.(rows := s.rows - {k}, node := node), s.rows[k].cid);
  }

  // ---------------------------------------------------------------------------------------------
  // Deletes that fail half-way.
  // ---------------------------------------------------------------------------------------------

  /** The file goes, or its removal is not answered, and the row stays. */
  predicate HalfWay(f: DeleteFaults)
  {
    f.select && (f.unlink.Lost? || (f.unlink.Done? && !f.remove))
  }

  /** Table, tree and tasks after a delete of an anchored key under any faults. */
  lemma DeleteUnderFaults(s: Core, cfg: Config, k: ObjectKey, f: DeleteFaults)
    requires k in s.rows && Accepted(cfg, k) && FilePath(cfg, k) != [] && FilePath(cfg, k) in s.node.files
    ensures var s' := RemoveObject(s, cfg, k, f).0;
            var node := if f.select then Unlink(s.node, FilePath(cfg, k), f.unlink).0 else s.node;
            && s'.rows == (if f.select && f.unlink.Done? && f.remove then s.rows - {k} else s.rows)
            && s'.node.files == node.files && s'.node.dirs == node.dirs
            && (s'.trims == s.trims || (k !in s'.rows && s'.trims == s.trims + multiset{Find(k)}))
  {
    var node := Unlink(s.node, FilePath(cfg, k), f.unlink).0;
    OrphanKeepsTree(s.(rows := s.rows - {k}, node := node), s.rows[k].cid, f.orphan);
  }

  lemma OrphanKeepsTree(s: Core, cid: Cid, f: OrphanFaults)
    ensures var s' := UnpinIfOrphan(s, cid, f).0;
            && s'.rows == s.rows && s'.trims == s.trims
            && s'.node.files == s.node.files && s'.node.dirs == s.node.dirs
  {
  }

  /** A delete keeps live objects anchored exactly when it does not stop half-way at a live key. */
  lemma DeleteKeepsAnchoredIff(s: Core, cfg: Config, k: ObjectKey, f: DeleteFaults)
    requires Anchored(s, cfg)
    ensures Anchored(RemoveObject(s, cfg, k, f).0, cfg) <==> !(k in s.rows && HalfWay(f))
  {
    if k in s.rows {
      var s' := RemoveObject(s, cfg, k, f).0;
      DeleteUnderFaults(s, cfg, k, f);
      if HalfWay(f) {
        assert k in s'.rows && FilePath(cfg, k) !in s'.node.files;
      } else if k in s'.rows {
        SameFiles(s, s', cfg);
      } else {
        RowGoneKeepsAnchored(s, s', cfg, k);
      }
    }
  }

  lemma SameFiles(s: Core, s': Core, cfg: Config)
    requires Anchored(s, cfg)
    requires s'.rows == s.rows && s'.trims == s.trims && s'.node.files == s.node.files
    ensures Anchored(s', cfg)
  {
  }

  lemma RowGoneKeepsAnchored(s: Core, s': Core, cfg: Config, k: ObjectKey)
    requires Anchored(s, cfg) && k in s.rows && s'.rows == s.rows - {k}
    requires s'.trims == s.trims || s'.trims == s.trims + multiset{Find(k)}
    requires s'.node.files == map p | p in s.node.files && !(FilePath(cfg, k) <= p) :: s.node.files[p]
    ensures Anchored(s', cfg)
  {
    forall k' | k' in s'.rows ensures Compatible(cfg, k, k') {
    }
    forall j, k' | j in s'.trims && k' in s'.rows ensures Spares(cfg, j, k') {
      assert j in s.trims || j == Find(k);
    }
  }

  /** A healthy delete of a live key succeeds exactly if its path is in the tree, as a file or a directory. */
  lemma DeletableIff(s: Core, cfg: Config, k: ObjectKey)
    requires PinSafe(s) && k in s.rows && Accepted(cfg, k)
    ensures if FilePath(cfg, k) != [] && Exists(s.node, FilePath(cfg, k))
            then RemoveObject(s, cfg, k, HEALTHY_DELETE).1.NoContent204?
            else RemoveObject(s, cfg, k, HEALTHY_DELETE) == (s, Error500)
  {
    if FilePath(cfg, k) != [] && Exists(s.node, FilePath(cfg, k)) {
      HealthyDelete(s, cfg, k);
    }
  }

  /**
   A delete that stops half-way is the only one after which a healthy delete of the key answers with
   an error and changes nothing.
   */
  lemma UndeletableIff(s: Core, cfg: Config, k: ObjectKey, f: DeleteFaults)
    requires Anchored(s, cfg) && PinSafe(s) && k in s.rows
    ensures var s' := RemoveObject(s, cfg, k, f).0;
            RemoveObject(s', cfg, k, HEALTHY_DELETE) == (s', Error500) <==> HalfWay(f)
  {
    var s' := RemoveObject(s, cfg, k, f).0;
    RemoveKeepsPins(s, cfg, k, f);
    DeleteUnderFaults(s, cfg, k, f);
    if k in s'.rows && !HalfWay(f) {
      HealthyDelete(s', cfg, k);
    }
  }

  /** A healthy delete succeeds exactly on live keys, and every other live object keeps its file. */
  lemma DeleteKeepsAnchored(s: Core, cfg: Config, k: ObjectKey)
    requires Anchored(s, cfg) && PinSafe(s)
    ensures var (s', st) := RemoveObject(s, cfg, k, HEALTHY_DELETE);
            && Anchored(s', cfg) && PinSafe(s')
            && (Success(st) <==> k in s.rows)
            && s'.rows == s.rows - {k}
            && (forall k' :: k' in s'.rows ==> s'.node.files[FilePath(cfg, k')] == s.node.files[FilePath(cfg, k')])
  {
    RemoveKeepsPins(s, cfg, k, HEALTHY_DELETE);
    DeleteKeepsAnchoredIff(s, cfg, k, HEALTHY_DELETE);
    if k in s.rows {
      HealthyDelete(s, cfg, k);
    } else {
      assert s.rows - {k} == s.rows;
    }
  }

  // ---------------------------------------------------------------------------------------------
  // Puts.
  // ---------------------------------------------------------------------------------------------

  /** A put may name a key that is compatible with every other live key and that no pending trim is after. */
  ghost predicate MayPut(s: Core, cfg: Config, k: ObjectKey)
  {
    && (forall k' :: k' in s.rows && k' != k ==> Compatible(cfg, k, k'))
    && (forall j :: j in s.trims ==> Spares(cfg, j, k))
  }

  lemma StoreInTree(s: Core, cfg: Config, k: ObjectKey, header: Option<string>, body: Bytes, f: PutFaults)
    ensures var (s', st) := StoreObject(s, cfg, k, header, body, f);
            && s'.trims == s.trims
            && s'.rows.Keys == (if st.Ok200? then s.rows.Keys + {k} else s.rows.Keys)
            && s.node.files.Keys <= s'.node.files.Keys
            && (st.Ok200? ==> Accepted(cfg, k) && FilePath(cfg, k) != [] && FilePath(cfg, k) in s'.node.files)
  {
  }

  /** Whatever fails during it, such a put keeps live objects anchored. */
  lemma StoreKeepsAnchored(s: Core, cfg: Config, k: ObjectKey, header: Option<string>, body: Bytes, f: PutFaults)
    requires Anchored(s, cfg) && MayPut(s, cfg, k)
    ensures Anchored(StoreObject(s, cfg, k, header, body, f).0, cfg)
  {
    StoreInTree(s, cfg, k, header, body, f);
    var s' := StoreObject(s, cfg, k, header, body, f).0;
    forall j, k' | j in s'.trims && k' in s'.rows ensures Spares(cfg, j, k') {
      assert k' in s.rows || k' == k;
    }
    forall k1, k2 | k1 in s'.rows && k2 in s'.rows && k1 != k2 ensures Compatible(cfg, k1, k2) {
      assert k1 in s.rows || k1 == k;
      assert k2 in s.rows || k2 == k;
    }
  }

  // ---------------------------------------------------------------------------------------------
  // Runs.
  // ---------------------------------------------------------------------------------------------

  /** Puts name keys they may name, and no delete stops half-way; everything else may fail at will. */
  ghost predicate Careful(s: State, cfg: Config, e: Event)
  {
    match e
    case Put(req, _) => PartParams(req.partNumber, req.uploadId).None? ==> MayPut(s.core, cfg, req.key)
    case Complete(k, id, _) => id in s.uploads ==> MayPut(s.core, cfg, k)
    case Delete(k, id, f) => id.None? && k in s.core.rows ==> !HalfWay(f)
    case _ => true
  }

  ghost predicate CarefulRun(cfg: Config, es: seq<Event>)
  {
    es != [] ==> CarefulRun(cfg, es[..|es| - 1]) && Careful(Run(cfg, es[..|es| - 1]), cfg, es[|es| - 1])
  }

  lemma UnpinKeepsTree(s: Core, cid: Cid, f: OrphanFaults)
    ensures var s' := RunUnpin(s, cid, f);
            && s'.rows == s.rows && s'.trims == s.trims
            && s'.node.files == s.node.files && s'.node.dirs == s.node.dirs
  {
    OrphanKeepsTree(s.(unpins := s.unpins - multiset{cid}), cid, f);
  }

  lemma StepKeepsAnchored(s: State, cfg: Config, e: Event)
    requires Anchored(s.core, cfg) && Careful(s, cfg, e)
    ensures Anchored(Step(s, cfg, e).0.core, cfg)
  {
    match e {
      case Put(req, f) =>
        if PartParams(req.partNumber, req.uploadId).None? {
          StoreKeepsAnchored(s.core, cfg, req.key, req.header, req.body, f);
        }
      case Delete(k, id, f) =>
        if id.None? {
          DeleteKeepsAnchoredIff(s.core, cfg, k, f);
        }
      case Create(id) =>
      case Complete(k, id, f) =>
        if id in s.uploads {
          StoreKeepsAnchored(s.core, cfg, k, None, AssembledBody(s.uploads[id]), f);
        }
      case TaskUnpin(cid, f) =>
        UnpinKeepsTree(s.core, cid, f);
        SameFiles(s.core, RunUnpin(s.core, cid, f), cfg);
      case TaskTrim(job, f) => TrimKeepsAnchored(s.core, cfg, job, f);
      case Gc(doomed) => SameFiles(s.core, Step(s, cfg, e).0.core, cfg);
    }
  }

  lemma {:induction false} CarefulRunIsAnchored(cfg: Config, es: seq<Event>)
    requires CarefulRun(cfg, es)
    ensures Anchored(Run(cfg, es).core, cfg)
  {
    if es == [] {
    } else {
      CarefulRunIsAnchored(cfg, es[..|es| - 1]);
      StepKeepsAnchored(Run(cfg, es[..|es| - 1]), cfg, es[|es| - 1]);
    }
  }

  /** After every careful run each live object is in the tree, and a healthy delete of it succeeds. */
  lemma CarefulRunStrandsNothing(cfg: Config, es: seq<Event>, k: ObjectKey)
    requires CarefulRun(cfg, es) && k in Run(cfg, es).core.rows
    ensures var s := Run(cfg, es).core;
            && FilePath(cfg, k) in s.node.files
            && RemoveObject(s, cfg, k, HEALTHY_DELETE).1.NoContent204?
  {
    CarefulRunIsAnchored(cfg, es);
    RunIsPinSafe(cfg, es);
    HealthyDelete(Run(cfg, es).core, cfg, k);
  }

  // ---------------------------------------------------------------------------------------------
  // Objects whose path is missing from the tree.
  // ---------------------------------------------------------------------------------------------

  /** The state after further events. */
  function Continue(s: State, cfg: Config, es: seq<Event>): State
  {
    if es == [] then s else Step(Continue(s, cfg, es[..|es| - 1]), cfg, es[|es| - 1]).0
  }

  /** The event stores an object at the path or below it. */
  predicate PutsAtOrBelow(s: State, cfg: Config, e: Event, p: Path)
  {
    match e
    case Put(req, _) =>
      PartParams(req.partNumber, req.uploadId).None? && Accepted(cfg, req.key) && p <= FilePath(cfg, req.key)
    case Complete(k, id, _) => id in s.uploads && Accepted(cfg, k) && p <= FilePath(cfg, k)
    case _ => false
  }

  ghost predicate NothingPutAtOrBelow(s: State, cfg: Config, es: seq<Event>, p: Path)
  {
    es != [] ==>
      var earlier := es[..|es| - 1];
      NothingPutAtOrBelow(s, cfg, earlier, p) && !PutsAtOrBelow(Continue(s, cfg, earlier), cfg, es[|es| - 1], p)
  }

  /** The object is live, but its path is not in the tree. */
  predicate Missing(s: Core, cfg: Config, k: ObjectKey)
  {
    k in s.rows && Accepted(cfg, k) && !Exists(s.node, FilePath(cfg, k))
  }

  lemma StoreKeepsMissing(s: Core, cfg: Config, k: ObjectKey, other: ObjectKey, header: Option<string>, body: Bytes,
      f: PutFaults)
    requires Missing(s, cfg, k) && !(Accepted(cfg, other) && FilePath(cfg, k) <= FilePath(cfg, other))
    ensures Missing(StoreObject(s, cfg, other, header, body, f).0, cfg, k)
  {
    if Accepted(cfg, other) {
      var p := FilePath(cfg, other);
      assert FilePath(cfg, k) !in Above(p);
      assert !Exists(AddContent(s.node, p, body, f.add, f.link).0, FilePath(cfg, k));
    }
  }

  lemma UnlinkAddsNothing(n: Node, path: Path, reply: Reply, p: Path)
    requires !Exists(n, p)
    ensures !Exists(Unlink(n, path, reply).0, p)
  {
  }

  /** A delete of the key itself stops at the missing path, a delete of another key leaves the row alone. */
  lemma RemoveKeepsMissing(s: Core, cfg: Config, k: ObjectKey, other: ObjectKey, f: DeleteFaults)
    requires Missing(s, cfg, k)
    ensures Missing(RemoveObject(s, cfg, other, f).0, cfg, k)
  {
    if f.select && other in s.rows && Accepted(cfg, other) {
      var (node, unlinked) := Unlink(s.node, FilePath(cfg, other), f.unlink);
      UnlinkAddsNothing(s.node, FilePath(cfg, other), f.unlink, FilePath(cfg, k));
      OrphanKeepsTree(s.(rows := s.rows - {other}, node := node), s.rows[other].cid, f.orphan);
    }
  }

  lemma TrimKeepsMissing(s: Core, cfg: Config, k: ObjectKey, job: TrimJob, f: TrimFaults)
    requires Missing(s, cfg, k)
    ensures Missing(RunTrim(s, cfg, job, f), cfg, k)
  {
    if job.Remove? {
      UnlinkAddsNothing(s.node, job.path, f.unlink, FilePath(cfg, k));
    }
  }

  lemma StepKeepsMissing(s: State, cfg: Config, e: Event, k: ObjectKey)
    requires Missing(s.core, cfg, k) && !PutsAtOrBelow(s, cfg, e, FilePath(cfg, k))
    ensures Missing(Step(s, cfg, e).0.core, cfg, k)
  {
    match e {
      case Put(req, f) =>
        if PartParams(req.partNumber, req.uploadId).None? {
          StoreKeepsMissing(s.core, cfg, k, req.key, req.header, req.body, f);
        }
      case Delete(other, id, f) =>
        if id.None? {
          RemoveKeepsMissing(s.core, cfg, k, other, f);
        }
      case Create(id) =>
      case Complete(other, id, f) =>
        if id in s.uploads {
          StoreKeepsMissing(s.core, cfg, k, other, None, AssembledBody(s.uploads[id]), f);
        }
      case TaskUnpin(cid, f) => UnpinKeepsTree(s.core, cid, f);
      case TaskTrim(job, f) => TrimKeepsMissing(s.core, cfg, k, job, f);
      case Gc(doomed) =>
    }
  }

  /**
   Whatever happens and fails, an object whose path is missing stays live, and every healthy delete of
   it answers with an error and changes nothing, until something is put at its path or below.
   */
  lemma {:induction false} StaysUndeletable(s: State, cfg: Config, es: seq<Event>, k: ObjectKey)
    requires Missing(s.core, cfg, k) && NothingPutAtOrBelow(s, cfg, es, FilePath(cfg, k))
    ensures var s' := Continue(s, cfg, es).core;
            Missing(s', cfg, k) && RemoveObject(s', cfg, k, HEALTHY_DELETE) == (s', Error500)
  {
    if es == [] {
    } else {
      StaysUndeletable(s, cfg, es[..|es| - 1], k);
      StepKeepsMissing(Continue(s, cfg, es[..|es| - 1]), cfg, es[|es| - 1], k);
    }
  }
}
