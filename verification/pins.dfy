/**
 Reference counting.  The bridge stores no counts: it recounts the rows naming an identifier before
 it unpins.  With requests as single steps this never unpins content that a row still names, whatever
 the backends fail to do, and never forgets a pin as long as no request reports an error.
 */
module Pins {
  import opened Options
  import opened Paths
  import opened IpfsNode
  import opened Database
  import opened Slots
  import opened Bridge

  /** The node is intact, and what the rows name is pinned. */
  ghost predicate Sound(n: Node)
  {
    && n.pinned <= n.blocks.Keys
    && forall c :: c in n.blocks ==> n.blocks[c] == c.content
  }

  ghost predicate PinSafe(s: Core)
  {
    && Sound(s.node)
    && (forall k :: k in s.rows ==> s.rows[k].cid in s.node.pinned && s.rows[k].size == |s.rows[k].cid.content|)
  }

  lemma AddKeepsSound(n: Node, path: Path, content: Bytes, add: Reply, link: Reply)
    requires Sound(n)
    ensures var (n', added) := AddContent(n, path, content, add, link);
            && Sound(n') && n.pinned <= n'.pinned <= n.pinned + {CidOf(content)}
            && (added.Some? ==> added.value == CidOf(content) && added.value in n'.pinned)
  {
  }

  lemma StoreKeepsPins(s: Core, cfg: Config, k: ObjectKey, header: Option<string>, body: Bytes, f: PutFaults)
    requires PinSafe(s)
    ensures PinSafe(StoreObject(s, cfg, k, header, body, f).0)
  {
    if PathOf(cfg, k).Some? {
      AddKeepsSound(s.node, PathOf(cfg, k).value, body, f.add, f.link);
    }
  }

  /** The unpin is guarded by the recount, so it never hits a named identifier. */
  lemma OrphanKeepsPins(s: Core, cid: Cid, f: OrphanFaults)
    requires PinSafe(s)
    ensures PinSafe(UnpinIfOrphan(s, cid, f).0)
  {
    forall k | k in s.rows && cid !in CidsOf(s.rows) ensures s.rows[k].cid != cid {
      assert s.rows[k].cid in CidsOf(s.rows);
    }
  }

  /** A healthy orphan check of content that was just released always succeeds: it is still pinned. */
  lemma HealthyOrphanSucceeds(s: Core, cid: Cid)
    requires cid in s.node.pinned
    ensures UnpinIfOrphan(s, cid, HEALTHY_ORPHAN).1
  {
  }

  lemma RemoveKeepsPins(s: Core, cfg: Config, k: ObjectKey, f: DeleteFaults)
    requires PinSafe(s)
    ensures PinSafe(RemoveObject(s, cfg, k, f).0)
  {
    var path := PathOf(cfg, k);
    if f.select && k in s.rows && path.Some? {
      var (node, unlinked) := Unlink(s.node, path.value, f.unlink);
      if unlinked && f.remove {
        OrphanKeepsPins(s.(rows := s.rows - {k}, node := node), s.rows[k].cid, f.orphan);
      }
    }
  }

  /** A trim touches the file tree only. */
  lemma TrimKeepsContent(s: Core, cfg: Config, job: TrimJob, f: TrimFaults)
    ensures var s' := RunTrim(s, cfg, job, f);
            && s'.rows == s.rows && s'.unpins == s.unpins
            && s'.node.pinned == s.node.pinned && s'.node.blocks == s.node.blocks
  {
    if job in s.trims && job.Remove? {
      assert RunTrim(s, cfg, job, f).node == Unlink(s.node, job.path, f.unlink).0;
    }
  }

  lemma UnpinTaskKeepsPins(s: Core, cid: Cid, f: OrphanFaults)
    requires PinSafe(s)
    ensures PinSafe(RunUnpin(s, cid, f))
  {
    OrphanKeepsPins(s.(unpins := s.unpins - multiset{cid}), cid, f);
  }

  lemma StepKeepsPins(s: State, cfg: Config, e: Event)
    requires PinSafe(s.core)
    ensures PinSafe(Step(s, cfg, e).0.core)
  {
    match e {
      case Put(req, f) => StoreKeepsPins(s.core, cfg, req.key, req.header, req.body, f);
      case Delete(k, id, f) => RemoveKeepsPins(s.core, cfg, k, f);
      case Create(id) =>
      case Complete(k, id, f) =>
        if id in s.uploads {
          StoreKeepsPins(s.core, cfg, k, None, AssembledBody(s.uploads[id]), f);
        }
      case TaskUnpin(cid, f) => UnpinTaskKeepsPins(s.core, cid, f);
      case TaskTrim(job, f) => TrimKeepsContent(s.core, cfg, job, f);
      case Gc(doomed) =>
    }
  }

  /** In every run, whatever fails, the content of every row is pinned and intact. */
  lemma {:induction false} RunIsPinSafe(cfg: Config, es: seq<Event>)
    ensures PinSafe(Run(cfg, es).core)
  {
    if es == [] {
    } else {
      RunIsPinSafe(cfg, es[..|es| - 1]);
      StepKeepsPins(Run(cfg, es[..|es| - 1]), cfg, es[|es| - 1]);
    }
  }

  // ---------------------------------------------------------------------------------------------
  // No leaked pin.
  // ---------------------------------------------------------------------------------------------

  /** Every pin is named by a row or by an orphan check that is still to run. */
  ghost predicate NoLeak(s: Core)
  {
    forall c :: c in s.node.pinned ==> c in CidsOf(s.rows) || c in s.unpins
  }

  predicate Healthy(e: Event)
  {
    match e
    case Put(_, f) => f == HEALTHY_PUT
    case Delete(_, _, f) => f == HEALTHY_DELETE
    case Create(_) => true
    case Complete(_, _, f) => f == HEALTHY_PUT
    case TaskUnpin(_, f) => f == HEALTHY_ORPHAN
    case TaskTrim(_, f) => f == HEALTHY_TRIM
    case Gc(_) => true
  }

  /** A healthy put fails exactly when its path cannot be linked; by then its content is pinned. */
  lemma HealthyPutFailsIff(s: Core, cfg: Config, k: ObjectKey, header: Option<string>, body: Bytes)
    ensures var (s', st) := StoreObject(s, cfg, k, header, body, HEALTHY_PUT);
            && (st.Error500? <==> PathOf(cfg, k).Some? && !CanLink(s.node, PathOf(cfg, k).value))
            && (st.Error500? ==> s'.rows == s.rows && s'.unpins == s.unpins && CidOf(body) in s'.node.pinned)
  {
  }

  /** The put is refused before it pins, can be linked, or its content is named by somebody else. */
  predicate PinIsAccounted(s: Core, cfg: Config, k: ObjectKey, body: Bytes)
  {
    || PathOf(cfg, k).None?
    || CanLink(s.node, PathOf(cfg, k).value)
    || CidOf(body) in CidsOf(s.rows)
    || CidOf(body) in s.unpins
  }

  /** Exactly when a put on a healthy backend leaves no pin behind. */
  lemma HealthyPutLeaksIff(s: Core, cfg: Config, k: ObjectKey, header: Option<string>, body: Bytes)
    requires NoLeak(s)
    ensures NoLeak(StoreObject(s, cfg, k, header, body, HEALTHY_PUT).0) <==> PinIsAccounted(s, cfg, k, body)
  {
    var (s', st) := StoreObject(s, cfg, k, header, body, HEALTHY_PUT);
    HealthyPutFailsIff(s, cfg, k, header, body);
    if st.Ok200? {
      forall c | c in s'.node.pinned ensures c in CidsOf(s'.rows) || c in s'.unpins {
        if c == CidOf(body) {
          assert s'.rows[k].cid == c;
        } else if c in CidsOf(s.rows) {
          var k' :| k' in s.rows && s.rows[k'].cid == c;
          assert k' != k ==> s'.rows[k'].cid == c;
        }
      }
    }
  }

  lemma HealthyOrphanKeepsNoLeak(s: Core, cid: Cid)
    requires forall c :: c in s.node.pinned ==> c == cid || c in CidsOf(s.rows) || c in s.unpins
    ensures NoLeak(UnpinIfOrphan(s, cid, HEALTHY_ORPHAN).0)
  {
  }

  lemma HealthyRemoveKeepsNoLeak(s: Core, cfg: Config, k: ObjectKey)
    requires NoLeak(s)
    ensures NoLeak(RemoveObject(s, cfg, k, HEALTHY_DELETE).0)
  {
    var path := PathOf(cfg, k);
    if k in s.rows && path.Some? {
      var (node, unlinked) := Unlink(s.node, path.value, Done);
      if unlinked {
        var mid := s.(rows := s.rows - {k}, node := node);
        forall c | c in mid.node.pinned ensures c == s.rows[k].cid || c in CidsOf(mid.rows) || c in mid.unpins {
          if c in CidsOf(s.rows) {
            var k' :| k' in s.rows && s.rows[k'].cid == c;
            assert k' != k ==> mid.rows[k'].cid == c;
          }
        }
        HealthyOrphanKeepsNoLeak(mid, s.rows[k].cid);
      }
    }
  }

  /** What an event has to meet to leave no pin behind: a condition on puts and completions only. */
  predicate LeavesNoPin(s: State, cfg: Config, e: Event)
  {
    match e
    case Put(req, _) =>
      PartParams(req.partNumber, req.uploadId).None? ==> PinIsAccounted(s.core, cfg, req.key, req.body)
    case Complete(k, id, _) => id in s.uploads ==> PinIsAccounted(s.core, cfg, k, AssembledBody(s.uploads[id]))
    case _ => true
  }

  lemma StepLeaksIff(s: State, cfg: Config, e: Event)
    requires NoLeak(s.core) && Healthy(e)
    ensures NoLeak(Step(s, cfg, e).0.core) <==> LeavesNoPin(s, cfg, e)
  {
    match e {
      case Put(req, f) =>
        if PartParams(req.partNumber, req.uploadId).None? {
          HealthyPutLeaksIff(s.core, cfg, req.key, req.header, req.body);
        }
      case Delete(k, id, f) =>
        if id.None? {
          HealthyRemoveKeepsNoLeak(s.core, cfg, k);
        }
      case Create(id) =>
      case Complete(k, id, f) =>
        if id in s.uploads {
          HealthyPutLeaksIff(s.core, cfg, k, None, AssembledBody(s.uploads[id]));
        }
      case TaskUnpin(cid, f) =>
        if cid in s.core.unpins {
          HealthyOrphanKeepsNoLeak(s.core.(unpins := s.core.unpins - multiset{cid}), cid);
        }
      case TaskTrim(job, f) => TrimKeepsContent(s.core, cfg, job, f);
      case Gc(doomed) =>
    }
  }

  /** A healthy history in which every put that pins can be linked, or pins what is accounted for. */
  ghost predicate CleanRun(cfg: Config, es: seq<Event>)
  {
    es != [] ==>
      var e, earlier := es[|es| - 1], es[..|es| - 1];
      CleanRun(cfg, earlier) && Healthy(e) && LeavesNoPin(Run(cfg, earlier), cfg, e)
  }

  lemma {:induction false} CleanRunLeaksNothing(cfg: Config, es: seq<Event>)
    requires CleanRun(cfg, es)
    ensures NoLeak(Run(cfg, es).core)
    ensures Run(cfg, es).core.unpins == multiset{} ==> Run(cfg, es).core.node.pinned == CidsOf(Run(cfg, es).core.rows)
  {
    RunIsPinSafe(cfg, es);
    if es == [] {
    } else {
      CleanRunLeaksNothing(cfg, es[..|es| - 1]);
      StepLeaksIff(Run(cfg, es[..|es| - 1]), cfg, es[|es| - 1]);
    }
  }

  // ---------------------------------------------------------------------------------------------
  // What tasks and collections achieve.
  // ---------------------------------------------------------------------------------------------

  /** A pending check is used up whatever fails; on a healthy node it unpins its content unless a row names it. */
  lemma OrphanTaskClears(s: State, cfg: Config, cid: Cid, f: OrphanFaults)
    requires cid in s.core.unpins
    ensures var s' := Step(s, cfg, TaskUnpin(cid, f)).0;
            && s'.uploads == s.uploads && s'.core.rows == s.core.rows && s'.core.trims == s.core.trims
            && s'.core.unpins == s.core.unpins - multiset{cid} && s'.core.node.blocks == s.core.node.blocks
            && (forall c :: c in s'.core.node.pinned ==> c in s.core.node.pinned)
            && (f == HEALTHY_ORPHAN ==> forall c :: c in s'.core.node.pinned <==>
                  c in s.core.node.pinned && (c != cid || exists k :: k in s.core.rows && s.core.rows[k].cid == cid))
  {
    if cid in CidsOf(s.core.rows) {
      var k :| k in s.core.rows && s.core.rows[k].cid == cid;
    }
  }

  /** A collection drops exactly the doomed blocks that are not pinned, and nothing else. */
  lemma CollectionDrops(s: State, cfg: Config, doomed: set<Cid>)
    ensures var s' := Step(s, cfg, Gc(doomed)).0;
            && (forall c :: c in s'.core.node.blocks <==>
                  c in s.core.node.blocks && (c in s.core.node.pinned || c !in doomed))
            && (forall c :: c in s'.core.node.blocks ==> s'.core.node.blocks[c] == s.core.node.blocks[c])
            && s'.uploads == s.uploads && s'.core == s.core.(node := s.core.node.(blocks := s'.core.node.blocks))
  {
  }

  /** Healthy checks, one after the other. */
  function RunChecks(s: Core, cids: seq<Cid>): Core
  {
    if cids == [] then s else RunUnpin(RunChecks(s, cids[..|cids| - 1]), cids[|cids| - 1], HEALTHY_ORPHAN)
  }

  /** One check less is pending, and everything is as safe and as well accounted for as before. */
  lemma CheckTheNext(s: Core, cid: Cid)
    requires PinSafe(s) && NoLeak(s) && cid in s.unpins
    ensures var s' := RunUnpin(s, cid, HEALTHY_ORPHAN);
            PinSafe(s') && NoLeak(s') && s'.rows == s.rows && |s'.unpins| < |s.unpins|
  {
    var claimed := s.(unpins := s.unpins - multiset{cid});
    UnpinTaskKeepsPins(s, cid, HEALTHY_ORPHAN);
    HealthyOrphanKeepsNoLeak(claimed, cid);
    assert |s.unpins - multiset{cid}| < |s.unpins|;
  }

  /** The checks done so far can be followed by more, until none is pending. */
  lemma {:induction false} CheckOn(s: Core, done: seq<Cid>) returns (cids: seq<Cid>)
    requires PinSafe(RunChecks(s, done)) && NoLeak(RunChecks(s, done)) && RunChecks(s, done).rows == s.rows
    ensures var s' := RunChecks(s, cids);
            s'.rows == s.rows && s'.unpins == multiset{} && PinSafe(s') && NoLeak(s')
    decreases |RunChecks(s, done).unpins|
  {
    var s' := RunChecks(s, done);
    if s'.unpins == multiset{} {
      cids := done;
    } else {
      var cid :| cid in s'.unpins;
      CheckTheNext(s', cid);
      assert (done + [cid])[..|done|] == done;
      assert RunChecks(s, done + [cid]) == RunUnpin(s', cid, HEALTHY_ORPHAN);
      cids := CheckOn(s, done + [cid]);
    }
  }

  /** With no check pending the pins are the contents of the rows. */
  lemma PinsAreRows(s: Core)
    requires PinSafe(s) && NoLeak(s) && s.unpins == multiset{}
    ensures s.node.pinned == CidsOf(s.rows)
  {
  }

  /** After every clean run the pending checks can run out, and then the pins are exactly the rows' contents. */
  lemma ChecksRunOut(cfg: Config, es: seq<Event>) returns (cids: seq<Cid>)
    requires CleanRun(cfg, es)
    ensures var s := Run(cfg, es).core;
            var s' := RunChecks(s, cids);
            s'.rows == s.rows && s'.unpins == multiset{} && s'.node.pinned == CidsOf(s.rows)
  {
    var s := Run(cfg, es).core;
    RunIsPinSafe(cfg, es);
    CleanRunLeaksNothing(cfg, es);
    cids := CheckOn(s, []);
    PinsAreRows(RunChecks(s, cids));
  }
}
