/**
 The bridge with every `.await` as a step of its own.  Any number of puts, deletes and spawned tasks
 interleave; every answer of a backend may be a failure; the node collects unpinned blocks at will.
 */
module AwaitSteps {
  import opened Options
  import opened Paths
  import opened IpfsNode
  import opened Database
  import opened Bridge
  import opened Pins
  import opened Tree

  /** Where a request or a task stands: the next step it takes, with what it remembers. */
  datatype Proc =
    | PutRead(key: ObjectKey, header: Option<string>, body: Bytes)
    | PutAdd(key: ObjectKey, header: Option<string>, body: Bytes, previous: Option<Cid>)
    | PutLink(key: ObjectKey, row: Row, previous: Option<Cid>)
    | PutStore(key: ObjectKey, row: Row, previous: Option<Cid>)
    | DelRead(key: ObjectKey)
    | DelUnlink(key: ObjectKey, cid: Cid)
    | DelRow(key: ObjectKey, cid: Cid)
    | CountRefs(cid: Cid, trim: Option<ObjectKey>)
    | UnpinNow(cid: Cid, trim: Option<ObjectKey>)
    | TrimProbe(bucket: string, ancestor: string, shallow: Option<string>)
    | TrimRemove(path: Path)
    | Ended

  datatype World = World(rows: Rows, node: Node, procs: map<nat, Proc>)

  const START := World(map[], EMPTY_NODE, map[])

  datatype Move =
    | Begin(pid: nat, proc: Proc)
    | Advance(pid: nat, up: bool, reply: Reply)
    | CollectBlocks(doomed: set<Cid>)

  predicate Fresh(p: Proc)
  {
    p.PutRead? || p.DelRead?
  }

  function AfterOrphan(cfg: Config, trim: Option<ObjectKey>): Proc
  {
    if trim.Some? && cfg.trimEmptyFolders then TrimProbe(trim.value.bucket, trim.value.key, None) else Ended
  }

  function AfterProbes(cfg: Config, bucket: string, shallow: Option<string>): Proc
  {
    if shallow.None? then Ended
    else
      var path := NormalizedPath(cfg.prefix, bucket, shallow.value);
      if path.Some? then TrimRemove(path.value) else Ended
  }

  datatype Effect = Effect(rows: Rows, node: Node, next: Proc)

  /** One step of one process: a query if it talks to the table, a call if it talks to the node. */
  function Act(rows: Rows, node: Node, cfg: Config, p: Proc, up: bool, reply: Reply): Effect
  {
    match p
    case PutRead(k, header, body) =>
      if !up || PathOf(cfg, k).None? then Effect(rows, node, Ended)
      else Effect(rows, node, PutAdd(k, header, body, if k in rows then Some(rows[k].cid) else None))
    case PutAdd(k, header, body, previous) =>
      var (n, ok) := Add(node, body, reply);
      var row := Row(CidOf(body), |body|, ContentTypeOf(cfg, k.key, header));
      Effect(rows, n, if ok then PutLink(k, row, previous) else Ended)
    case PutLink(k, row, previous) =>
      if PathOf(cfg, k).None? then Effect(rows, node, Ended)
      else
        var (n, ok) := Link(node, PathOf(cfg, k).value, row.cid, reply);
        Effect(rows, n, if ok then PutStore(k, row, previous) else Ended)
    case PutStore(k, row, previous) =>
      if !up then Effect(rows, node, Ended)
      else Effect(rows[k := row], node,
                  if previous.Some? && previous.value != row.cid then CountRefs(previous.value, None) else Ended)
    case DelRead(k) =>
      if !up || k !in rows || PathOf(cfg, k).None? then Effect(rows, node, Ended)
      else Effect(rows, node, DelUnlink(k, rows[k].cid))
    case DelUnlink(k, cid) =>
      if PathOf(cfg, k).None? then Effect(rows, node, Ended)
      else
        var (n, ok) := Unlink(node, PathOf(cfg, k).value, reply);
        Effect(rows, n, if ok then DelRow(k, cid) else Ended)
    case DelRow(k, cid) =>
      if !up then Effect(rows, node, Ended) else Effect(rows - {k}, node, CountRefs(cid, Some(k)))
    case CountRefs(cid, trim) =>
      Effect(rows, node,
             if !up then Ended
             else if cid in CidsOf(rows) then AfterOrphan(cfg, trim)
             else UnpinNow(cid, trim))
    case UnpinNow(cid, trim) =>
      var (n, ok) := Unpin(node, cid, reply);
      Effect(rows, n, if ok then AfterOrphan(cfg, trim) else Ended)
    case TrimProbe(bucket, ancestor, shallow) =>
      Effect(rows, node,
             if ancestor == "" then AfterProbes(cfg, bucket, shallow)
             else if !up then Ended
             else if !LooksEmpty(rows, bucket, ancestor) then AfterProbes(cfg, bucket, shallow)
             else TrimProbe(bucket, Parent(ancestor), Some(ancestor)))
    case TrimRemove(path) => Effect(rows, Unlink(node, path, reply).0, Ended)
    case Ended => Effect(rows, node, Ended)
  }

  function Apply(w: World, cfg: Config, m: Move): World
  {
    match m
    case Begin(pid, p) =>
      if pid in w.procs || !Fresh(p) then w else w.(procs := w.procs[pid := p])
    case Advance(pid, up, reply) =>
      if pid !in w.procs then w
      else
        var e := Act(w.rows, w.node, cfg, w.procs[pid], up, reply);
        World(e.rows, e.node, w.procs[pid := e.next])
    case CollectBlocks(doomed) => w.(node := Collect(w.node, doomed))
  }

  function Play(w: World, cfg: Config, ms: seq<Move>): World
  {
    if ms == [] then w else Apply(Play(w, cfg, ms[..|ms| - 1]), cfg, ms[|ms| - 1])
  }

  // ---------------------------------------------------------------------------------------------
  // Safety under the window hypothesis.
  // ---------------------------------------------------------------------------------------------

  /** The content is added, but its row is not stored yet. */
  predicate InAddWindow(p: Proc, c: Cid)
  {
    (p.PutLink? || p.PutStore?) && p.row.cid == c
  }

  /** The rows naming the content were counted as none, but the pin is not removed yet. */
  predicate InUnpinWindow(p: Proc, c: Cid)
  {
    p.UnpinNow? && p.cid == c
  }

  ghost predicate WindowsOverlap(w: World)
  {
    exists a, u, c :: a in w.procs && u in w.procs && InAddWindow(w.procs[a], c) && InUnpinWindow(w.procs[u], c)
  }

  /** What a row names is pinned, and its block is there, unchanged and of the recorded size. */
  ghost predicate Safe(w: World)
  {
    forall k :: k in w.rows ==>
      var r := w.rows[k];
      r.cid in w.node.pinned && r.cid in w.node.blocks
      && w.node.blocks[r.cid] == r.cid.content && r.size == |r.cid.content|
  }

  /** What a client gets. */
  function Observed(w: World, k: ObjectKey): GetResult
  {
    GetObject(Core(w.rows, w.node, multiset{}, multiset{}), k)
  }

  ghost predicate RowsFit(rows: Rows, node: Node)
  {
    forall k :: k in rows ==> rows[k].cid in node.pinned && rows[k].size == |rows[k].cid.content|
  }

  ghost predicate ProcFits(w: World, p: Proc)
  {
    && (p.PutLink? || p.PutStore? ==> p.row.cid in w.node.pinned && p.row.size == |p.row.cid.content|)
    && (p.UnpinNow? ==> p.cid !in CidsOf(w.rows))
  }

  ghost predicate Inv(w: World)
  {
    && Sound(w.node)
    && RowsFit(w.rows, w.node)
    && (forall pid :: pid in w.procs ==> ProcFits(w, w.procs[pid]))
  }

  lemma MoveKeepsSound(rows: Rows, node: Node, cfg: Config, p: Proc, up: bool, reply: Reply)
    requires Sound(node)
    ensures Sound(Act(rows, node, cfg, p, up, reply).node)
  {
  }

  /** A move leaves the rows covered: a store brings in pinned content, an unpin takes unnamed content. */
  lemma MoveKeepsRowsFit(rows: Rows, node: Node, cfg: Config, p: Proc, up: bool, reply: Reply)
    requires RowsFit(rows, node)
    requires p.PutStore? ==> p.row.cid in node.pinned && p.row.size == |p.row.cid.content|
    requires p.UnpinNow? ==> p.cid !in CidsOf(rows)
    ensures var e := Act(rows, node, cfg, p, up, reply);
            RowsFit(e.rows, e.node)
  {
    if p.UnpinNow? {
      forall k | k in rows ensures rows[k].cid != p.cid {
        assert rows[k].cid in CidsOf(rows);
      }
    }
  }

  /** The process that moves keeps its own promise. */
  lemma MoverFits(w: World, cfg: Config, p: Proc, up: bool, reply: Reply)
    requires ProcFits(w, p)
    ensures var e := Act(w.rows, w.node, cfg, p, up, reply);
            ProcFits(World(e.rows, e.node, w.procs), e.next)
  {
  }

  /** What one move can take away from the others: an unpin one pin, a store one absence. */
  lemma OthersKeep(w: World, cfg: Config, p: Proc, up: bool, reply: Reply, c: Cid)
    ensures var e := Act(w.rows, w.node, cfg, p, up, reply);
            && (c in w.node.pinned && !InUnpinWindow(p, c) ==> c in e.node.pinned)
            && (c !in CidsOf(w.rows) && !InAddWindow(p, c) ==> c !in CidsOf(e.rows))
  {
  }

  lemma ApplyKeepsInv(w: World, cfg: Config, m: Move)
    requires Inv(w) && !WindowsOverlap(w)
    ensures Inv(Apply(w, cfg, m))
  {
    if m.Advance? && m.pid in w.procs {
      var p := w.procs[m.pid];
      var w' := Apply(w, cfg, m);
      assert ProcFits(w, p);
      MoveKeepsSound(w.rows, w.node, cfg, p, m.up, m.reply);
      MoveKeepsRowsFit(w.rows, w.node, cfg, p, m.up, m.reply);
      MoverFits(w, cfg, p, m.up, m.reply);
      forall other | other in w'.procs && other != m.pid ensures ProcFits(w', w'.procs[other]) {
        var q := w.procs[other];
        assert ProcFits(w, q);
        if q.PutLink? || q.PutStore? {
          OthersKeep(w, cfg, p, m.up, m.reply, q.row.cid);
          assert InAddWindow(q, q.row.cid);
        }
        if q.UnpinNow? {
          OthersKeep(w, cfg, p, m.up, m.reply, q.cid);
          assert InUnpinWindow(q, q.cid);
        }
      }
    }
  }

  /** No state of the history, before its last move, has overlapping windows. */
  ghost predicate WindowsApart(w: World, cfg: Config, ms: seq<Move>)
  {
    ms != [] ==> WindowsApart(w, cfg, ms[..|ms| - 1]) && !WindowsOverlap(Play(w, cfg, ms[..|ms| - 1]))
  }

  lemma {:induction false} PlayKeepsInv(w: World, cfg: Config, ms: seq<Move>)
    requires Inv(w) && WindowsApart(w, cfg, ms)
    ensures Inv(Play(w, cfg, ms))
  {
    if ms == [] {
    } else {
      PlayKeepsInv(w, cfg, ms[..|ms| - 1]);
      ApplyKeepsInv(Play(w, cfg, ms[..|ms| - 1]), cfg, ms[|ms| - 1]);
    }
  }

  /** Every interleaving in which the windows of one content stay apart is safe, whatever fails. */
  lemma {:induction false} PinSafety(cfg: Config, ms: seq<Move>)
    requires WindowsApart(START, cfg, ms)
    ensures Safe(Play(START, cfg, ms))
  {
    PlayKeepsInv(START, cfg, ms);
  }

  // ---------------------------------------------------------------------------------------------
  // The hypothesis cannot be dropped.
  // ---------------------------------------------------------------------------------------------

  /**
   From any state with overlapping windows three steps lose the pin of a stored row, and a collection
   then loses the object, unless the put is bound to fail at the file tree.
   */
  lemma OverlapIsFatal(w: World, cfg: Config, a: nat, u: nat, c: Cid) returns (ms: seq<Move>)
    requires a in w.procs && u in w.procs
    requires InAddWindow(w.procs[a], c) && InUnpinWindow(w.procs[u], c)
    requires w.procs[a].PutLink? ==>
               PathOf(cfg, w.procs[a].key).Some? && CanLink(w.node, PathOf(cfg, w.procs[a].key).value)
    ensures |ms| <= 3 && forall m :: m in ms ==> m.Advance? && m.up && m.reply.Done? && (m.pid == a || m.pid == u)
    ensures var w' := Play(w, cfg, ms);
            var k := w.procs[a].key;
            && !Safe(w')
            && k in w'.rows && w'.rows[k].cid == c
            && Observed(Apply(w', cfg, CollectBlocks({c})), k) == Unavailable
  {
    var p, w1 := w.procs[a], Apply(w, cfg, Go(u));
    GoUnpin(w, cfg, u, c);
    if p.PutStore? {
      ms := [Go(u), Go(a)];
      PlayTwo(w, cfg, Go(u), Go(a));
      GoStore(w1, cfg, a, p.key, p.row, p.previous);
    } else {
      ms := [Go(u), Go(a), Go(a)];
      PlayThree(w, cfg, Go(u), Go(a), Go(a));
      GoLink(w1, cfg, a, p.key, p.row, p.previous);
      GoStore(Apply(w1, cfg, Go(a)), cfg, a, p.key, p.row, p.previous);
    }
    UnpinnedIsLost(Play(w, cfg, ms), cfg, p.key, c);
  }

  lemma GoUnpin(w: World, cfg: Config, u: nat, c: Cid)
    requires u in w.procs && InUnpinWindow(w.procs[u], c)
    ensures var w' := Apply(w, cfg, Go(u));
            && w'.rows == w.rows && c !in w'.node.pinned
            && w'.node.files == w.node.files && w'.node.dirs == w.node.dirs
            && w'.procs.Keys == w.procs.Keys && (forall pid :: pid in w.procs && pid != u ==> w'.procs[pid] == w.procs[pid])
  {
  }

  lemma UnpinnedIsLost(w: World, cfg: Config, k: ObjectKey, c: Cid)
    requires k in w.rows && w.rows[k].cid == c && c !in w.node.pinned
    ensures !Safe(w) && Observed(Apply(w, cfg, CollectBlocks({c})), k) == Unavailable
  {
  }

  // ---------------------------------------------------------------------------------------------
  // Undisturbed requests are the single steps of the bridge.
  // ---------------------------------------------------------------------------------------------

  /** The process takes its next step with nothing in between. */
  function Next(cfg: Config, e: Effect, up: bool, reply: Reply): Effect
  {
    Act(e.rows, e.node, cfg, e.next, up, reply)
  }

  /** Four steps of a put on its own. */
  function FourSteps(s: Core, cfg: Config, p: Proc, f: PutFaults): Effect
  {
    var e := ThreeSteps(s, cfg, p, f);
    Next(cfg, e, f.upsert, Done)
  }

  function ThreeSteps(s: Core, cfg: Config, p: Proc, f: PutFaults): Effect
  {
    Next(cfg, Next(cfg, Next(cfg, Effect(s.rows, s.node, p), f.select, Done), true, f.add), true, f.link)
  }

  lemma ThreeStepsOfPut(s: Core, cfg: Config, k: ObjectKey, header: Option<string>, body: Bytes, f: PutFaults)
    ensures var path := PathOf(cfg, k);
            var row := Row(CidOf(body), |body|, ContentTypeOf(cfg, k.key, header));
            ThreeSteps(s, cfg, PutRead(k, header, body), f) ==
            if !f.select || path.None? then Effect(s.rows, s.node, Ended)
            else
              var (node, added) := AddContent(s.node, path.value, body, f.add, f.link);
              Effect(s.rows, node,
                     if added.None? then Ended
                     else PutStore(k, row, if k in s.rows then Some(s.rows[k].cid) else None))
  {
    if f.select && PathOf(cfg, k).Some? {
      UndisturbedAdd(s, cfg, k, header, body, if k in s.rows then Some(s.rows[k].cid) else None, f.add, f.link);
    }
  }

  /** A put that nothing interrupts changes table, node and orphan checks as the one-step put does. */
  lemma UndisturbedPut(s: Core, cfg: Config, k: ObjectKey, header: Option<string>, body: Bytes, f: PutFaults)
    ensures var e := FourSteps(s, cfg, PutRead(k, header, body), f);
            var s' := StoreObject(s, cfg, k, header, body, f).0;
            && e.rows == s'.rows && e.node == s'.node
            && s'.unpins == s.unpins + if e.next.CountRefs? then multiset{e.next.cid} else multiset{}
  {
    ThreeStepsOfPut(s, cfg, k, header, body, f);
    if f.select && PathOf(cfg, k).Some? {
      var (node, added) := AddContent(s.node, PathOf(cfg, k).value, body, f.add, f.link);
      if added.Some? {
        StoredLast(s, cfg, k, header, body, f, node);
      }
    }
  }

  lemma StoredLast(s: Core, cfg: Config, k: ObjectKey, header: Option<string>, body: Bytes, f: PutFaults, node: Node)
    requires f.select && PathOf(cfg, k).Some?
    requires AddContent(s.node, PathOf(cfg, k).value, body, f.add, f.link) == (node, Some(CidOf(body)))
    ensures var row := Row(CidOf(body), |body|, ContentTypeOf(cfg, k.key, header));
            var e := Act(s.rows, node, cfg, PutStore(k, row, if k in s.rows then Some(s.rows[k].cid) else None), f.upsert, Done);
            var s' := StoreObject(s, cfg, k, header, body, f).0;
            && e.rows == s'.rows && e.node == s'.node
            && s'.unpins == s.unpins + if e.next.CountRefs? then multiset{e.next.cid} else multiset{}
  {
  }

  lemma UndisturbedAdd(s: Core, cfg: Config, k: ObjectKey, header: Option<string>, body: Bytes,
      previous: Option<Cid>, add: Reply, link: Reply)
    requires PathOf(cfg, k).Some?
    ensures var e := Next(cfg, Effect(s.rows, s.node, PutAdd(k, header, body, previous)), true, add);
            var (node, added) := AddContent(s.node, PathOf(cfg, k).value, body, add, link);
            var row := Row(CidOf(body), |body|, ContentTypeOf(cfg, k.key, header));
            Next(cfg, e, true, link) == Effect(s.rows, node, if added.Some? then PutStore(k, row, previous) else Ended)
  {
  }

  /** The two steps of an orphan check with nothing in between. */
  function OrphanSteps(cfg: Config, e: Effect, f: OrphanFaults): Effect
  {
    var counted := Next(cfg, e, f.count, Done);
    if counted.next.UnpinNow? then Next(cfg, counted, true, f.unpin) else counted
  }

  /**
   So does an orphan check that nothing interrupts.  A trim starts after it only if trimming is
   configured, a delete asked for the check, and the check succeeded.
   */
  lemma UndisturbedOrphan(s: Core, cfg: Config, cid: Cid, trim: Option<ObjectKey>, f: OrphanFaults)
    ensures var e := OrphanSteps(cfg, Effect(s.rows, s.node, CountRefs(cid, trim)), f);
            var (s', ok) := UnpinIfOrphan(s, cid, f);
            && e.rows == s'.rows && e.node == s'.node
            && e.next == if ok && trim.Some? && cfg.trimEmptyFolders then TrimProbe(trim.value.bucket, trim.value.key, None)
                         else Ended
  {
  }

  /** The steps of a delete up to the removal of the row. */
  function RowSteps(s: Core, cfg: Config, k: ObjectKey, f: DeleteFaults): Effect
  {
    Next(cfg, Next(cfg, Next(cfg, Effect(s.rows, s.node, DelRead(k)), f.select, Done), true, f.unlink), f.remove, Done)
  }

  /** All steps of a delete, its orphan check included. */
  function DeleteSteps(s: Core, cfg: Config, k: ObjectKey, f: DeleteFaults): Effect
  {
    var e := RowSteps(s, cfg, k, f);
    if e.next.CountRefs? then OrphanSteps(cfg, e, f.orphan) else e
  }

  lemma UndisturbedRow(s: Core, cfg: Config, k: ObjectKey, f: DeleteFaults)
    ensures var e := RowSteps(s, cfg, k, f);
            var path := PathOf(cfg, k);
            if !f.select || k !in s.rows || path.None? then e == Effect(s.rows, s.node, Ended)
            else
              var (node, unlinked) := Unlink(s.node, path.value, f.unlink);
              if !unlinked || !f.remove then e == Effect(s.rows, node, Ended)
              else e == Effect(s.rows - {k}, node, CountRefs(s.rows[k].cid, Some(k)))
  {
    if f.select && k in s.rows && PathOf(cfg, k).Some? {
      var e1 := Next(cfg, Effect(s.rows, s.node, DelRead(k)), f.select, Done);
      assert e1 == Effect(s.rows, s.node, DelUnlink(k, s.rows[k].cid));
      var (node, unlinked) := Unlink(s.node, PathOf(cfg, k).value, f.unlink);
      assert Next(cfg, e1, true, f.unlink) == Effect(s.rows, node, if unlinked then DelRow(k, s.rows[k].cid) else Ended);
    }
  }

  /**
   So does a delete that nothing interrupts, and its trim follows: the process looks for a directory to
   remove, starting from the deleted key, exactly when the one-step delete leaves such a task behind.
   */
  lemma UndisturbedDelete(s: Core, cfg: Config, k: ObjectKey, f: DeleteFaults)
    ensures var e := DeleteSteps(s, cfg, k, f);
            var (s', st) := RemoveObject(s, cfg, k, f);
            && s'.rows == e.rows && s'.node == e.node && s'.unpins == s.unpins
            && s'.trims == s.trims + (if e.next.TrimProbe? then multiset{Find(k)} else multiset{})
            && (e.next == TrimProbe(k.bucket, k.key, None) || e.next == Ended)
            && (e.next.TrimProbe? <==> st.NoContent204? && cfg.trimEmptyFolders)
  {
    UndisturbedRow(s, cfg, k, f);
    var none: multiset<TrimJob> := multiset{};
    assert s.trims + none == s.trims;
    if f.select && k in s.rows && PathOf(cfg, k).Some? {
      var (node, unlinked) := Unlink(s.node, PathOf(cfg, k).value, f.unlink);
      if unlinked && f.remove {
        UndisturbedOrphan(s.(rows := s.rows - {k}, node := node), cfg, s.rows[k].cid, Some(k), f.orphan);
      }
    }
  }

  /** The queries of a trim with nothing in between, up to the removal if there is one. */
  function Probes(rows: Rows, node: Node, cfg: Config, p: Proc, failAt: Option<nat>): Effect
    decreases if p.TrimProbe? then |p.ancestor| + 1 else 0
  {
    if !p.TrimProbe? then Effect(rows, node, p)
    else Probes(rows, node, cfg, Act(rows, node, cfg, p, failAt != Some(0), Done).next, Before(failAt))
  }

  lemma {:induction false} ProbesAreTheWalk(rows: Rows, node: Node, cfg: Config, bucket: string, ancestor: string,
      shallow: Option<string>, failAt: Option<nat>)
    ensures Probes(rows, node, cfg, TrimProbe(bucket, ancestor, shallow), failAt) ==
            var found := Walk(rows, bucket, ancestor, failAt, shallow);
            Effect(rows, node, if found.Err? then Ended else AfterProbes(cfg, bucket, found.value))
    decreases |ancestor|
  {
    if ancestor == "" {
      ProbesEnd(rows, node, cfg, AfterProbes(cfg, bucket, shallow), Before(failAt));
    } else if failAt != Some(0) && LooksEmpty(rows, bucket, ancestor) {
      ProbeGoesUp(rows, node, cfg, bucket, ancestor, shallow, failAt);
      ProbesAreTheWalk(rows, node, cfg, bucket, Parent(ancestor), Some(ancestor), Before(failAt));
    } else {
      StoppedProbe(rows, node, cfg, bucket, ancestor, shallow, failAt);
    }
  }

  lemma ProbesEnd(rows: Rows, node: Node, cfg: Config, p: Proc, failAt: Option<nat>)
    requires !p.TrimProbe?
    ensures Probes(rows, node, cfg, p, failAt) == Effect(rows, node, p)
  {
  }

  lemma ProbeGoesUp(rows: Rows, node: Node, cfg: Config, bucket: string, ancestor: string,
      shallow: Option<string>, failAt: Option<nat>)
    requires ancestor != "" && failAt != Some(0) && LooksEmpty(rows, bucket, ancestor)
    ensures Probes(rows, node, cfg, TrimProbe(bucket, ancestor, shallow), failAt) ==
            Probes(rows, node, cfg, TrimProbe(bucket, Parent(ancestor), Some(ancestor)), Before(failAt))
    ensures Walk(rows, bucket, ancestor, failAt, shallow) ==
            Walk(rows, bucket, Parent(ancestor), Before(failAt), Some(ancestor))
  {
    assert Act(rows, node, cfg, TrimProbe(bucket, ancestor, shallow), true, Done).next
        == TrimProbe(bucket, Parent(ancestor), Some(ancestor));
  }

  lemma StoppedProbe(rows: Rows, node: Node, cfg: Config, bucket: string, ancestor: string,
      shallow: Option<string>, failAt: Option<nat>)
    requires ancestor != "" && (failAt == Some(0) || !LooksEmpty(rows, bucket, ancestor))
    ensures Probes(rows, node, cfg, TrimProbe(bucket, ancestor, shallow), failAt) ==
            Effect(rows, node, if failAt == Some(0) then Ended else AfterProbes(cfg, bucket, shallow))
  {
    var p := TrimProbe(bucket, ancestor, shallow);
    ProbesEnd(rows, node, cfg, Act(rows, node, cfg, p, failAt != Some(0), Done).next, Before(failAt));
  }

  /** So does a trim whose queries nothing interrupts: it goes on to the removal that the single step schedules. */
  lemma UndisturbedTrim(s: Core, cfg: Config, k: ObjectKey, f: TrimFaults)
    requires Find(k) in s.trims
    ensures var e := Probes(s.rows, s.node, cfg, TrimProbe(k.bucket, k.key, None), f.failAt);
            var s' := RunTrim(s, cfg, Find(k), f);
            && e.rows == s'.rows && e.node == s'.node && (e.next.TrimRemove? || e.next.Ended?)
            && s'.trims == s.trims - multiset{Find(k)}
                           + if e.next.TrimRemove? then multiset{Remove(k.bucket, e.next.path)} else multiset{}
  {
    ProbesAreTheWalk(s.rows, s.node, cfg, k.bucket, k.key, None, f.failAt);
  }

  // ---------------------------------------------------------------------------------------------
  // The unsafe history.
  // ---------------------------------------------------------------------------------------------

  function Go(pid: nat): Move
  {
    Advance(pid, true, Done)
  }

  function RowOf(cfg: Config, k: ObjectKey, body: Bytes): Row
  {
    Row(CidOf(body), |body|, ContentTypeOf(cfg, k.key, None))
  }

  lemma GoRead(w: World, cfg: Config, pid: nat, k: ObjectKey, body: Bytes)
    requires pid in w.procs && w.procs[pid] == PutRead(k, None, body) && Accepted(cfg, k)
    ensures Apply(w, cfg, Go(pid)) ==
            w.(procs := w.procs[pid := PutAdd(k, None, body, if k in w.rows then Some(w.rows[k].cid) else None)])
  {
  }

  lemma GoAdd(w: World, cfg: Config, pid: nat, k: ObjectKey, body: Bytes, previous: Option<Cid>)
    requires pid in w.procs && w.procs[pid] == PutAdd(k, None, body, previous)
    ensures Apply(w, cfg, Go(pid)) ==
            World(w.rows, Add(w.node, body, Done).0, w.procs[pid := PutLink(k, RowOf(cfg, k, body), previous)])
  {
  }

  lemma GoLink(w: World, cfg: Config, pid: nat, k: ObjectKey, row: Row, previous: Option<Cid>)
    requires pid in w.procs && w.procs[pid] == PutLink(k, row, previous)
    requires Accepted(cfg, k) && CanLink(w.node, FilePath(cfg, k))
    ensures Apply(w, cfg, Go(pid)) ==
            World(w.rows, Link(w.node, FilePath(cfg, k), row.cid, Done).0, w.procs[pid := PutStore(k, row, previous)])
  {
  }

  lemma GoStore(w: World, cfg: Config, pid: nat, k: ObjectKey, row: Row, previous: Option<Cid>)
    requires pid in w.procs && w.procs[pid] == PutStore(k, row, previous)
    ensures Apply(w, cfg, Go(pid)) ==
            World(w.rows[k := row], w.node,
                  w.procs[pid := if previous.Some? && previous.value != row.cid then CountRefs(previous.value, None) else Ended])
  {
  }

  lemma GoDelRead(w: World, cfg: Config, pid: nat, k: ObjectKey)
    requires pid in w.procs && w.procs[pid] == DelRead(k) && k in w.rows && Accepted(cfg, k)
    ensures Apply(w, cfg, Go(pid)) == w.(procs := w.procs[pid := DelUnlink(k, w.rows[k].cid)])
  {
  }

  lemma {:induction false} PlayConcat(w: World, cfg: Config, ms: seq<Move>, ns: seq<Move>)
    ensures Play(w, cfg, ms + ns) == Play(Play(w, cfg, ms), cfg, ns)
  {
    if ns == [] {
      assert ms + ns == ms;
    } else {
      var n := |ns| - 1;
      assert (ms + ns)[..|ms + ns| - 1] == ms + ns[..n];
      PlayConcat(w, cfg, ms, ns[..n]);
    }
  }

  lemma PlayThree(w: World, cfg: Config, a: Move, b: Move, c: Move)
    ensures Play(w, cfg, [a, b, c]) == Apply(Apply(Apply(w, cfg, a), cfg, b), cfg, c)
  {
    assert [a, b, c][..2] == [a, b] && [a, b][..1] == [a] && [a][..0] == [];
    assert Play(w, cfg, [a]) == Apply(w, cfg, a);
    assert Play(w, cfg, [a, b]) == Apply(Apply(w, cfg, a), cfg, b);
  }

  lemma PlayTwo(w: World, cfg: Config, a: Move, b: Move)
    ensures Play(w, cfg, [a, b]) == Apply(Apply(w, cfg, a), cfg, b)
  {
    assert [a, b][..1] == [a] && [a][..0] == [];
    assert Play(w, cfg, [a]) == Apply(w, cfg, a);
  }

  lemma PlayLast(w: World, cfg: Config, ms: seq<Move>, m: Move)
    ensures Play(w, cfg, ms + [m]) == Apply(Play(w, cfg, ms), cfg, m)
  {
    assert (ms + [m])[..|ms|] == ms;
  }

  lemma PlayFive(w: World, cfg: Config, a: Move, b: Move, c: Move, d: Move, e: Move)
    ensures Play(w, cfg, [a, b, c, d, e]) == Apply(Apply(Play(w, cfg, [a, b, c]), cfg, d), cfg, e)
  {
    assert [a, b, c, d, e][..4] == [a, b, c, d] && [a, b, c, d][..3] == [a, b, c];
  }

  function PutMoves(pid: nat, k: ObjectKey, body: Bytes): seq<Move>
  {
    [Begin(pid, PutRead(k, None, body)), Go(pid), Go(pid), Go(pid), Go(pid)]
  }

  function DeleteMoves(pid: nat, k: ObjectKey): seq<Move>
  {
    [Begin(pid, DelRead(k)), Go(pid), Go(pid), Go(pid), Go(pid)]
  }

  function HalfPutMoves(pid: nat, k: ObjectKey, body: Bytes): seq<Move>
  {
    [Begin(pid, PutRead(k, None, body)), Go(pid), Go(pid)]
  }

  lemma PutAlone(cfg: Config, k: ObjectKey, body: Bytes)
    requires Accepted(cfg, k) && FilePath(cfg, k) != []
    ensures var w := Play(START, cfg, PutMoves(0, k, body));
            var p, c := FilePath(cfg, k), CidOf(body);
            && w.rows.Keys == {k} && w.rows[k].cid == c && w.rows[k].size == |body|
            && w.node == Node({c}, map[c := body], map[p := c], Above(p))
            && w.procs == map[0 := Ended]
  {
    var b, g := Begin(0, PutRead(k, None, body)), Go(0);
    PlayThree(START, cfg, b, g, g);
    PlayFive(START, cfg, b, g, g, g, g);
    FourGoes(Apply(START, cfg, b), cfg, k, body);
  }

  lemma FourGoes(w: World, cfg: Config, k: ObjectKey, body: Bytes)
    requires Accepted(cfg, k) && FilePath(cfg, k) != []
    requires w == START.(procs := map[0 := PutRead(k, None, body)])
    ensures var p, c := FilePath(cfg, k), CidOf(body);
            Apply(Apply(Apply(Apply(w, cfg, Go(0)), cfg, Go(0)), cfg, Go(0)), cfg, Go(0)) ==
            World(map[k := RowOf(cfg, k, body)], Node({c}, map[c := body], map[p := c], Above(p)), map[0 := Ended])
  {
    GoRead(w, cfg, 0, k, body);
    var w2 := Apply(w, cfg, Go(0));
    GoAdd(w2, cfg, 0, k, body, None);
    var w3 := Apply(w2, cfg, Go(0));
    GoLink(w3, cfg, 0, k, RowOf(cfg, k, body), None);
    GoStore(Apply(w3, cfg, Go(0)), cfg, 0, k, RowOf(cfg, k, body), None);
  }

  lemma DeleteUpToTheUnpin(w: World, cfg: Config, k: ObjectKey, c: Cid)
    requires Accepted(cfg, k) && FilePath(cfg, k) != [] && 1 !in w.procs
    requires w.rows.Keys == {k} && w.rows[k].cid == c && FilePath(cfg, k) in w.node.files
    ensures var w' := Play(w, cfg, DeleteMoves(1, k));
            && w'.rows == map[] && w'.node == Unlink(w.node, FilePath(cfg, k), Done).0
            && w'.procs == w.procs[1 := UnpinNow(c, Some(k))]
  {
    var b, g := Begin(1, DelRead(k)), Go(1);
    DeleteUpToTheRow(w, cfg, k, c);
    PlayThree(w, cfg, b, g, g);
    PlayFive(w, cfg, b, g, g, g, g);
    RowThenCount(Play(w, cfg, [b, g, g]), cfg, k, c);
  }

  lemma RowThenCount(w: World, cfg: Config, k: ObjectKey, c: Cid)
    requires 1 in w.procs && w.procs[1] == DelRow(k, c) && w.rows.Keys == {k}
    ensures Apply(Apply(w, cfg, Go(1)), cfg, Go(1)) == World(map[], w.node, w.procs[1 := UnpinNow(c, Some(k))])
  {
    var w' := Apply(w, cfg, Go(1));
    assert w'.rows.Keys == {};
    assert w' == World(map[], w.node, w.procs[1 := CountRefs(c, Some(k))]);
    assert c !in CidsOf(w'.rows);
  }

  lemma DeleteUpToTheRow(w: World, cfg: Config, k: ObjectKey, c: Cid)
    requires Accepted(cfg, k) && FilePath(cfg, k) != [] && 1 !in w.procs
    requires w.rows.Keys == {k} && w.rows[k].cid == c && FilePath(cfg, k) in w.node.files
    ensures Play(w, cfg, [Begin(1, DelRead(k)), Go(1), Go(1)]) ==
            World(w.rows, Unlink(w.node, FilePath(cfg, k), Done).0, w.procs[1 := DelRow(k, c)])
  {
    PlayThree(w, cfg, Begin(1, DelRead(k)), Go(1), Go(1));
    GoDelRead(Apply(w, cfg, Begin(1, DelRead(k))), cfg, 1, k);
  }

  lemma PutUpToTheLink(w: World, cfg: Config, k: ObjectKey, body: Bytes)
    requires Accepted(cfg, k) && FilePath(cfg, k) != [] && 2 !in w.procs && w.rows == map[]
    ensures Play(w, cfg, HalfPutMoves(2, k, body)) ==
            World(map[], Add(w.node, body, Done).0, w.procs[2 := PutLink(k, RowOf(cfg, k, body), None)])
  {
    var b := Begin(2, PutRead(k, None, body));
    PlayThree(w, cfg, b, Go(2), Go(2));
    var w1 := Apply(w, cfg, b);
    GoRead(w1, cfg, 2, k, body);
    GoAdd(Apply(w1, cfg, Go(2)), cfg, 2, k, body, None);
  }

  function RaceMoves(k: ObjectKey, body: Bytes): seq<Move>
  {
    PutMoves(0, k, body) + DeleteMoves(1, k) + HalfPutMoves(2, k, body)
  }

  lemma PutThenDelete(cfg: Config, k: ObjectKey, body: Bytes)
    requires Accepted(cfg, k) && FilePath(cfg, k) != []
    ensures var w := Play(START, cfg, PutMoves(0, k, body) + DeleteMoves(1, k));
            var c := CidOf(body);
            && w.rows == map[] && w.node.files == map[] && FilePath(cfg, k) !in w.node.dirs
            && w.node.pinned == {c} && w.node.blocks == map[c := body]
            && w.procs == map[0 := Ended, 1 := UnpinNow(c, Some(k))]
  {
    PutAlone(cfg, k, body);
    var w1 := Play(START, cfg, PutMoves(0, k, body));
    DeleteUpToTheUnpin(w1, cfg, k, CidOf(body));
    PlayConcat(START, cfg, PutMoves(0, k, body), DeleteMoves(1, k));
  }

  /** The delete has counted no rows when the second put has added, but not yet linked, the content. */
  lemma RaceReachesOverlap(cfg: Config, k: ObjectKey, body: Bytes)
    requires Accepted(cfg, k) && FilePath(cfg, k) != []
    ensures var w := Play(START, cfg, RaceMoves(k, body));
            && Inv(w) && w.procs.Keys == {0, 1, 2}
            && InUnpinWindow(w.procs[1], CidOf(body)) && InAddWindow(w.procs[2], CidOf(body))
            && w.procs[2].PutLink? && w.procs[2].key == k && CanLink(w.node, FilePath(cfg, k))
  {
    PutThenDelete(cfg, k, body);
    PutUpToTheLink(Play(START, cfg, PutMoves(0, k, body) + DeleteMoves(1, k)), cfg, k, body);
    PlayConcat(START, cfg, PutMoves(0, k, body) + DeleteMoves(1, k), HalfPutMoves(2, k, body));
  }

  /**
   Put, delete and put again of the same content under the same key, nothing failing: from the overlap
   both requests go on, the second put succeeds, and after a collection its object is gone.
   */
  lemma RaceLosesTheObject(cfg: Config, k: ObjectKey, body: Bytes) returns (ms: seq<Move>)
    requires Accepted(cfg, k) && FilePath(cfg, k) != []
    ensures forall m :: m in ms ==> m.Begin? || (m.Advance? && m.up && m.reply.Done?)
    ensures var w := Play(START, cfg, ms);
            && k in w.rows && w.rows[k].cid == CidOf(body) && !Safe(w)
            && Observed(Apply(w, cfg, CollectBlocks({CidOf(body)})), k) == Unavailable
  {
    RaceReachesOverlap(cfg, k, body);
    var last := OverlapIsFatal(Play(START, cfg, RaceMoves(k, body)), cfg, 2, 1, CidOf(body));
    PlayConcat(START, cfg, RaceMoves(k, body), last);
    ms := RaceMoves(k, body) + last;
  }
}
