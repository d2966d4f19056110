/**
 The file tree with every `.await` as a step of its own.  A put links its file before it stores its
 row; in between no count sees the object.  As long as no delete or trim that would take the file is
 under way in that window, every live object keeps its file until a delete is about to remove its row.
 */
module AwaitTree {
  import opened Options
  import opened Paths
  import opened IpfsNode
  import opened Database
  import opened Bridge
  import opened Tree
  import opened AwaitSteps

  /** The process will take the file of `k`, or may do so unless its counts find `k`. */
  predicate Threatens(cfg: Config, p: Proc, k: ObjectKey)
  {
    match p
    case DelUnlink(other, _) => FilePath(cfg, other) <= FilePath(cfg, k)
    case CountRefs(_, trim) => trim.Some? && !Guarded(cfg, trim.value, k)
    case UnpinNow(_, trim) => trim.Some? && !Guarded(cfg, trim.value, k)
    case TrimProbe(bucket, ancestor, shallow) =>
      !Guarded(cfg, ObjectKey(bucket, ancestor), k) || (shallow.Some? && Covers(cfg, bucket, shallow.value, k))
    case TrimRemove(path) => path <= FilePath(cfg, k)
    case _ => false
  }

  /** The name resolves to the file of `k` or above it. */
  predicate Covers(cfg: Config, bucket: string, a: string, k: ObjectKey)
  {
    Accepted(cfg, ObjectKey(bucket, a)) && FilePath(cfg, ObjectKey(bucket, a)) <= FilePath(cfg, k)
  }

  /** A delete of the object is past its unlink and will remove the row next. */
  ghost predicate Going(w: World, k: ObjectKey)
  {
    exists pid :: pid in w.procs && w.procs[pid].DelRow? && w.procs[pid].key == k
  }

  predicate Deletes(p: Proc, k: ObjectKey)
  {
    p.DelUnlink? && p.key == k
  }

  /** The object has its file, and nothing but a delete of it is after that file. */
  ghost predicate Held(w: World, cfg: Config, k: ObjectKey)
  {
    && FilePath(cfg, k) in w.node.files
    && forall pid :: pid in w.procs && Threatens(cfg, w.procs[pid], k) ==> Deletes(w.procs[pid], k)
  }

  ghost predicate AllHeld(w: World, cfg: Config)
  {
    && (forall k :: k in w.rows ==> Held(w, cfg, k) || Going(w, k))
    && (forall pid :: pid in w.procs && w.procs[pid].PutStore? ==> FilePath(cfg, w.procs[pid].key) in w.node.files)
  }

  function KeyOf(p: Proc): Option<ObjectKey>
  {
    if p.PutRead? || p.PutAdd? || p.PutLink? || p.PutStore? || p.DelRead? || p.DelUnlink? || p.DelRow? then Some(p.key)
    else None
  }

  /** The keys that the requests of a history name. */
  ghost predicate Within(w: World, keys: set<ObjectKey>)
  {
    && w.rows.Keys <= keys
    && forall pid :: pid in w.procs && KeyOf(w.procs[pid]).Some? ==> KeyOf(w.procs[pid]).value in keys
  }

  ghost predicate PairwiseCompatible(cfg: Config, keys: set<ObjectKey>)
  {
    forall k, k' :: k in keys && k' in keys && k != k' ==> Compatible(cfg, k, k')
  }

  /** Some put has linked but not stored while a process is after its file. */
  ghost predicate FileAtRisk(w: World, cfg: Config)
  {
    exists put, pid :: put in w.procs && pid in w.procs && w.procs[put].PutStore? && Threatens(cfg, w.procs[pid], w.procs[put].key)
  }

  /** A delete does not stop between unlinking and removing its row; anything else may fail. */
  predicate NotHalfWay(p: Proc, up: bool, reply: Reply)
  {
    (p.DelUnlink? ==> !reply.Lost?) && (p.DelRow? ==> up)
  }

  ghost predicate Considerate(w: World, keys: set<ObjectKey>, m: Move)
  {
    match m
    case Begin(pid, p) => KeyOf(p).Some? ==> KeyOf(p).value in keys
    case Advance(pid, up, reply) => pid in w.procs ==> NotHalfWay(w.procs[pid], up, reply)
    case CollectBlocks(_) => true
  }

  // ---------------------------------------------------------------------------------------------
  // One move.
  // ---------------------------------------------------------------------------------------------

  /** A trim that threatens nothing goes on to threaten nothing: its counts find what they guard. */
  lemma ProbeStaysHarmless(rows: Rows, node: Node, cfg: Config, p: Proc, up: bool, reply: Reply, k: ObjectKey)
    requires p.TrimProbe? && k in rows && !Threatens(cfg, p, k)
    ensures !Threatens(cfg, Act(rows, node, cfg, p, up, reply).next, k)
  {
    if p.ancestor != "" && up && LooksEmpty(rows, p.bucket, p.ancestor) {
      EmptyCoversNothing(rows, cfg, p.bucket, p.ancestor, k);
      GuardedUpwards(cfg, p.bucket, p.ancestor, k);
    }
  }

  lemma EmptyCoversNothing(rows: Rows, cfg: Config, bucket: string, a: string, k: ObjectKey)
    requires a != "" && k in rows && LooksEmpty(rows, bucket, a) && Guarded(cfg, ObjectKey(bucket, a), k)
    ensures !Covers(cfg, bucket, a, k)
  {
    LooksEmptyMeans(rows, bucket, a);
    assert a in Ancestors(a);
  }

  lemma GuardedUpwards(cfg: Config, bucket: string, a: string, k: ObjectKey)
    requires a != "" && Guarded(cfg, ObjectKey(bucket, a), k)
    ensures Guarded(cfg, ObjectKey(bucket, Parent(a)), k)
  {
    assert forall b :: b in Ancestors(Parent(a)) ==> b in Ancestors(a);
  }

  /** The next step of a process is no threat that it was not before, except a delete of the object. */
  lemma NextIsNoThreat(rows: Rows, node: Node, cfg: Config, p: Proc, up: bool, reply: Reply, k: ObjectKey)
    requires k in rows && (Threatens(cfg, p, k) ==> Deletes(p, k))
    requires (p.DelRead? || p.DelRow?) && p.key != k ==> Compatible(cfg, p.key, k)
    ensures var e := Act(rows, node, cfg, p, up, reply);
            Threatens(cfg, e.next, k) && k in e.rows ==> Deletes(e.next, k)
  {
    if p.TrimProbe? {
      ProbeStaysHarmless(rows, node, cfg, p, up, reply, k);
    }
  }

  lemma FileStays(rows: Rows, node: Node, cfg: Config, p: Proc, up: bool, reply: Reply, k: ObjectKey)
    requires FilePath(cfg, k) in node.files && !Threatens(cfg, p, k)
    ensures FilePath(cfg, k) in Act(rows, node, cfg, p, up, reply).node.files
  {
  }

  /** A delete that takes its own file is about to remove the row; if it takes nothing the file is there. */
  lemma OwnFileGoes(rows: Rows, node: Node, cfg: Config, p: Proc, up: bool, reply: Reply, k: ObjectKey)
    requires Deletes(p, k) && NotHalfWay(p, up, reply) && FilePath(cfg, k) in node.files
    ensures var e := Act(rows, node, cfg, p, up, reply);
            FilePath(cfg, k) in e.node.files || e.next.DelRow?
    ensures var e := Act(rows, node, cfg, p, up, reply);
            e.next.DelRow? ==> e.next.key == k
  {
  }

  /** An object that was live and is still live. */
  lemma LiveStaysHeld(w: World, cfg: Config, a: nat, up: bool, reply: Reply, k: ObjectKey)
    requires a in w.procs && k in w.rows && (Held(w, cfg, k) || Going(w, k))
    requires NotHalfWay(w.procs[a], up, reply)
    requires KeyOf(w.procs[a]).Some? && KeyOf(w.procs[a]).value != k ==> Compatible(cfg, KeyOf(w.procs[a]).value, k)
    ensures var w' := Apply(w, cfg, Advance(a, up, reply));
            k in w'.rows ==> Held(w', cfg, k) || Going(w', k)
  {
    var p, w' := w.procs[a], Apply(w, cfg, Advance(a, up, reply));
    if k in w'.rows {
      if pid :| pid in w.procs && w.procs[pid].DelRow? && w.procs[pid].key == k {
        assert pid != a && w'.procs[pid] == w.procs[pid];
      } else {
        NextIsNoThreat(w.rows, w.node, cfg, p, up, reply, k);
        if Threatens(cfg, p, k) {
          OwnFileGoes(w.rows, w.node, cfg, p, up, reply, k);
        } else {
          FileStays(w.rows, w.node, cfg, p, up, reply, k);
        }
        if FilePath(cfg, k) !in w'.node.files {
          assert w'.procs[a].DelRow? && w'.procs[a].key == k;
        }
      }
    }
  }

  /** An object that the move makes live: its window was clear of threats. */
  lemma StoredIsHeld(w: World, cfg: Config, a: nat, up: bool, reply: Reply, k: ObjectKey)
    requires a in w.procs && AllHeld(w, cfg) && !FileAtRisk(w, cfg)
    ensures var w' := Apply(w, cfg, Advance(a, up, reply));
            k in w'.rows && k !in w.rows ==> Held(w', cfg, k)
  {
    var p, w' := w.procs[a], Apply(w, cfg, Advance(a, up, reply));
    if k in w'.rows && k !in w.rows {
      assert p.PutStore? && p.key == k;
      assert !Threatens(cfg, w'.procs[a], k);
      forall pid | pid in w'.procs && pid != a ensures !Threatens(cfg, w'.procs[pid], k) {
        assert !Threatens(cfg, w.procs[pid], w.procs[a].key);
      }
    }
  }

  /** A linked file is there until its put stores. */
  lemma LinkedStays(w: World, cfg: Config, a: nat, up: bool, reply: Reply, pid: nat)
    requires a in w.procs && AllHeld(w, cfg) && !FileAtRisk(w, cfg)
    ensures var w' := Apply(w, cfg, Advance(a, up, reply));
            pid in w'.procs && w'.procs[pid].PutStore? ==> FilePath(cfg, w'.procs[pid].key) in w'.node.files
  {
    var w' := Apply(w, cfg, Advance(a, up, reply));
    if pid in w.procs && pid != a && w.procs[pid].PutStore? {
      assert !Threatens(cfg, w.procs[a], w.procs[pid].key);
      FileStays(w.rows, w.node, cfg, w.procs[a], up, reply, w.procs[pid].key);
    } else if pid == a {
      LinkPutsTheFile(w.rows, w.node, cfg, w.procs[a], up, reply);
    }
  }

  lemma LinkPutsTheFile(rows: Rows, node: Node, cfg: Config, p: Proc, up: bool, reply: Reply)
    ensures var e := Act(rows, node, cfg, p, up, reply);
            e.next.PutStore? ==> FilePath(cfg, e.next.key) in e.node.files
  {
  }

  lemma AdvanceStaysWithin(w: World, cfg: Config, keys: set<ObjectKey>, a: nat, up: bool, reply: Reply)
    requires a in w.procs && Within(w, keys)
    ensures Within(Apply(w, cfg, Advance(a, up, reply)), keys)
  {
    var e := Act(w.rows, w.node, cfg, w.procs[a], up, reply);
    assert KeyOf(e.next).Some? ==> KeyOf(e.next) == KeyOf(w.procs[a]);
    assert e.rows.Keys <= w.rows.Keys + if w.procs[a].PutStore? then {w.procs[a].key} else {};
  }

  lemma AdvanceKeepsHeld(w: World, cfg: Config, keys: set<ObjectKey>, a: nat, up: bool, reply: Reply)
    requires a in w.procs && AllHeld(w, cfg) && !FileAtRisk(w, cfg)
    requires Within(w, keys) && PairwiseCompatible(cfg, keys) && NotHalfWay(w.procs[a], up, reply)
    ensures AllHeld(Apply(w, cfg, Advance(a, up, reply)), cfg)
  {
    var w' := Apply(w, cfg, Advance(a, up, reply));
    forall k | k in w'.rows ensures Held(w', cfg, k) || Going(w', k) {
      if k in w.rows {
        LiveStaysHeld(w, cfg, a, up, reply, k);
      } else {
        StoredIsHeld(w, cfg, a, up, reply, k);
      }
    }
    forall pid | pid in w'.procs && w'.procs[pid].PutStore? ensures FilePath(cfg, w'.procs[pid].key) in w'.node.files {
      LinkedStays(w, cfg, a, up, reply, pid);
    }
  }

  lemma BeginKeepsHeld(w: World, cfg: Config, keys: set<ObjectKey>, pid: nat, p: Proc)
    requires AllHeld(w, cfg) && Within(w, keys) && (KeyOf(p).Some? ==> KeyOf(p).value in keys)
    ensures AllHeld(Apply(w, cfg, Begin(pid, p)), cfg) && Within(Apply(w, cfg, Begin(pid, p)), keys)
  {
    var w' := Apply(w, cfg, Begin(pid, p));
    forall k | k in w'.rows ensures Held(w', cfg, k) || Going(w', k) {
      if other :| other in w.procs && w.procs[other].DelRow? && w.procs[other].key == k {
        assert w'.procs[other] == w.procs[other];
      } else {
        assert Held(w, cfg, k);
      }
    }
  }

  lemma ApplyKeepsHeld(w: World, cfg: Config, keys: set<ObjectKey>, m: Move)
    requires AllHeld(w, cfg) && !FileAtRisk(w, cfg) && Within(w, keys) && PairwiseCompatible(cfg, keys)
    requires Considerate(w, keys, m)
    ensures AllHeld(Apply(w, cfg, m), cfg) && Within(Apply(w, cfg, m), keys)
  {
    match m {
      case Begin(pid, p) => BeginKeepsHeld(w, cfg, keys, pid, p);
      case Advance(a, up, reply) =>
        if a in w.procs {
          AdvanceKeepsHeld(w, cfg, keys, a, up, reply);
          AdvanceStaysWithin(w, cfg, keys, a, up, reply);
        }
      case CollectBlocks(doomed) =>
        forall k | k in w.rows ensures Held(Apply(w, cfg, m), cfg, k) || Going(Apply(w, cfg, m), k) {
          assert Held(w, cfg, k) || Going(w, k);
        }
    }
  }

  // ---------------------------------------------------------------------------------------------
  // Whole interleavings.
  // ---------------------------------------------------------------------------------------------

  /** Requests name the given keys, no delete stops half-way, and no linked file is ever at risk. */
  ghost predicate ConsideratePlay(w: World, cfg: Config, keys: set<ObjectKey>, ms: seq<Move>)
  {
    ms != [] ==>
      var before := Play(w, cfg, ms[..|ms| - 1]);
      && ConsideratePlay(w, cfg, keys, ms[..|ms| - 1])
      && !FileAtRisk(before, cfg) && Considerate(before, keys, ms[|ms| - 1])
  }

  lemma {:induction false} PlayKeepsHeld(cfg: Config, keys: set<ObjectKey>, ms: seq<Move>)
    requires PairwiseCompatible(cfg, keys) && ConsideratePlay(START, cfg, keys, ms)
    ensures AllHeld(Play(START, cfg, ms), cfg) && Within(Play(START, cfg, ms), keys)
  {
    if ms == [] {
    } else {
      PlayKeepsHeld(cfg, keys, ms[..|ms| - 1]);
      ApplyKeepsHeld(Play(START, cfg, ms[..|ms| - 1]), cfg, keys, ms[|ms| - 1]);
    }
  }

  /**
   In every interleaving of puts, deletes and trims of compatible keys in which no linked file is at
   risk, each live object has its file, or a delete of it will remove its row next.
   */
  lemma LiveObjectsKeepTheirFiles(cfg: Config, keys: set<ObjectKey>, ms: seq<Move>)
    requires PairwiseCompatible(cfg, keys) && ConsideratePlay(START, cfg, keys, ms)
    ensures var w := Play(START, cfg, ms);
            forall k :: k in w.rows ==> FilePath(cfg, k) in w.node.files || Going(w, k)
  {
    PlayKeepsHeld(cfg, keys, ms);
  }

  // ---------------------------------------------------------------------------------------------
  // The hypothesis cannot be dropped.
  // ---------------------------------------------------------------------------------------------

  /** The process unlinks the path next. */
  predicate Unlinks(cfg: Config, p: Proc, path: Path)
  {
    (p.TrimRemove? && p.path == path) || (p.DelUnlink? && Accepted(cfg, p.key) && FilePath(cfg, p.key) == path)
  }

  /**
   From any state in which a put has linked and another process unlinks at or above its file next, at
   most three healthy moves of the two leave the object live and without its file.
   */
  lemma RiskStrands(w: World, cfg: Config, a: nat, u: nat, path: Path) returns (ms: seq<Move>)
    requires a in w.procs && u in w.procs && w.procs[a].PutStore? && Unlinks(cfg, w.procs[u], path)
    requires path != [] && path <= FilePath(cfg, w.procs[a].key) && Exists(w.node, path)
    ensures |ms| <= 3 && forall m :: m in ms ==> m == Go(a) || m == Go(u)
    ensures var w' := Play(w, cfg, ms);
            var k := w.procs[a].key;
            && k in w'.rows && !Exists(w'.node, FilePath(cfg, k))
            && w'.procs.Keys == w.procs.Keys && !w'.procs[a].DelRow? && !w'.procs[u].DelRow?
            && forall pid :: pid in w.procs && pid != a && pid != u ==> w'.procs[pid] == w.procs[pid]
  {
    var p := w.procs[a];
    var w1 := Apply(w, cfg, Go(u));
    UnlinkGoes(w, cfg, u, path, FilePath(cfg, p.key));
    if w.procs[u].TrimRemove? {
      ms := [Go(u), Go(a)];
      assert ms[..1] == [Go(u)] && [Go(u)][..0] == [];
      assert Play(w, cfg, [Go(u)]) == w1;
      GoStore(w1, cfg, a, p.key, p.row, p.previous);
    } else {
      ms := [Go(u), Go(u), Go(a)];
      PlayThree(w, cfg, Go(u), Go(u), Go(a));
      RowGoes(w1, cfg, u);
      GoStore(Apply(w1, cfg, Go(u)), cfg, a, p.key, p.row, p.previous);
    }
  }

  lemma UnlinkGoes(w: World, cfg: Config, u: nat, path: Path, below: Path)
    requires u in w.procs && Unlinks(cfg, w.procs[u], path) && path != [] && path <= below && Exists(w.node, path)
    ensures var w' := Apply(w, cfg, Go(u));
            && !Exists(w'.node, below)
            && w'.procs.Keys == w.procs.Keys && (forall pid :: pid in w.procs && pid != u ==> w'.procs[pid] == w.procs[pid])
            && (if w.procs[u].TrimRemove? then w'.procs[u].Ended? else w'.procs[u].DelRow?)
  {
  }

  lemma RowGoes(w: World, cfg: Config, u: nat)
    requires u in w.procs && w.procs[u].DelRow?
    ensures var w' := Apply(w, cfg, Go(u));
            && w'.node == w.node && w'.procs[u].CountRefs?
            && w'.procs.Keys == w.procs.Keys && (forall pid :: pid in w.procs && pid != u ==> w'.procs[pid] == w.procs[pid])
  {
  }

  function PutAndDelete(k: ObjectKey, body: Bytes): seq<Move>
  {
    [Begin(1, DelRead(k)), Go(1), Begin(2, PutRead(k, None, body)), Go(2), Go(2)]
  }

  /** A delete has read the row when a second put of the key has linked its file. */
  lemma PutAndDeleteMeet(w: World, cfg: Config, k: ObjectKey, body: Bytes)
    requires Accepted(cfg, k) && FilePath(cfg, k) != [] && w.rows.Keys == {k} && w.procs == map[0 := Ended]
    requires CanLink(w.node, FilePath(cfg, k))
    ensures var w' := Play(w, cfg, PutAndDelete(k, body) + [Go(2)]);
            && w'.procs.Keys == {0, 1, 2} && w'.procs[0] == Ended && w'.procs[1] == DelUnlink(k, w.rows[k].cid)
            && w'.procs[2].PutStore? && w'.procs[2].key == k && FilePath(cfg, k) in w'.node.files
  {
    var b1, b2 := Begin(1, DelRead(k)), Begin(2, PutRead(k, None, body));
    BothHaveBegun(w, cfg, k, body);
    PlayFive(w, cfg, b1, Go(1), b2, Go(2), Go(2));
    PlayLast(w, cfg, PutAndDelete(k, body), Go(2));
    SecondPutLinks(Play(w, cfg, [b1, Go(1), b2]), cfg, k, body, w.rows[k].cid);
  }

  lemma BothHaveBegun(w: World, cfg: Config, k: ObjectKey, body: Bytes)
    requires Accepted(cfg, k) && k in w.rows && w.procs == map[0 := Ended]
    ensures Play(w, cfg, [Begin(1, DelRead(k)), Go(1), Begin(2, PutRead(k, None, body))]) ==
            w.(procs := map[0 := Ended, 1 := DelUnlink(k, w.rows[k].cid), 2 := PutRead(k, None, body)])
  {
    PlayThree(w, cfg, Begin(1, DelRead(k)), Go(1), Begin(2, PutRead(k, None, body)));
    GoDelRead(Apply(w, cfg, Begin(1, DelRead(k))), cfg, 1, k);
  }

  lemma SecondPutLinks(w: World, cfg: Config, k: ObjectKey, body: Bytes, c: Cid)
    requires Accepted(cfg, k) && k in w.rows && w.rows[k].cid == c && CanLink(w.node, FilePath(cfg, k))
    requires w.procs == map[0 := Ended, 1 := DelUnlink(k, c), 2 := PutRead(k, None, body)]
    ensures var w' := Apply(Apply(Apply(w, cfg, Go(2)), cfg, Go(2)), cfg, Go(2));
            && w'.procs == map[0 := Ended, 1 := DelUnlink(k, c), 2 := PutStore(k, RowOf(cfg, k, body), Some(c))]
            && FilePath(cfg, k) in w'.node.files
  {
    GoRead(w, cfg, 2, k, body);
    var w1 := Apply(w, cfg, Go(2));
    GoAdd(w1, cfg, 2, k, body, Some(c));
    GoLink(Apply(w1, cfg, Go(2)), cfg, 2, k, RowOf(cfg, k, body), Some(c));
  }

  function MeetMoves(k: ObjectKey, first: Bytes, second: Bytes): seq<Move>
  {
    PutMoves(0, k, first) + (PutAndDelete(k, second) + [Go(2)])
  }

  lemma MeetFromStart(cfg: Config, k: ObjectKey, first: Bytes, second: Bytes)
    requires Accepted(cfg, k) && FilePath(cfg, k) != []
    ensures var w := Play(START, cfg, MeetMoves(k, first, second));
            && w.procs.Keys == {0, 1, 2} && w.procs[0] == Ended && Unlinks(cfg, w.procs[1], FilePath(cfg, k))
            && w.procs[2].PutStore? && w.procs[2].key == k && Exists(w.node, FilePath(cfg, k))
  {
    PutAlone(cfg, k, first);
    PutAndDeleteMeet(Play(START, cfg, PutMoves(0, k, first)), cfg, k, second);
    PlayConcat(START, cfg, PutMoves(0, k, first), PutAndDelete(k, second) + [Go(2)]);
  }

  /**
   A put, and then a delete and another put of the same key at once, nothing failing: all three succeed,
   and the object is live without its file.
   */
  lemma PutAndDeleteStrand(cfg: Config, k: ObjectKey, first: Bytes, second: Bytes) returns (ms: seq<Move>)
    requires Accepted(cfg, k) && FilePath(cfg, k) != []
    ensures forall m :: m in ms ==> m.Begin? || (m.Advance? && m.up && m.reply.Done?)
    ensures var w := Play(START, cfg, ms);
            k in w.rows && !Exists(w.node, FilePath(cfg, k)) && !Going(w, k)
  {
    MeetFromStart(cfg, k, first, second);
    var w := Play(START, cfg, MeetMoves(k, first, second));
    var last := RiskStrands(w, cfg, 2, 1, FilePath(cfg, k));
    PlayConcat(START, cfg, MeetMoves(k, first, second), last);
    ms := MeetMoves(k, first, second) + last;
  }
}
