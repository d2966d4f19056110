/**
 Pins that nobody looks after, with every `.await` as a step of its own.  A content is looked after as
 long as a row names it or a process will store or check it.  Exactly when a move ends that is known for
 every kind of move and every answer of the backends: a process gives up with its content pinned, or it
 takes the last row of a content that it does not remember.
 */
module AwaitLeaks {
  import opened Options
  import opened IpfsNode
  import opened Database
  import opened Bridge
  import opened Tree
  import opened AwaitSteps

  /** The row of the key is read, but not yet replaced or removed. */
  predicate InKeyWindow(p: Proc, k: ObjectKey)
  {
    (p.PutAdd? || p.PutLink? || p.PutStore? || p.DelUnlink? || p.DelRow?) && p.key == k
  }

  ghost predicate KeyWindowsOverlap(w: World)
  {
    exists a, b, k :: a in w.procs && b in w.procs && a != b && InKeyWindow(w.procs[a], k) && InKeyWindow(w.procs[b], k)
  }

  /** The process will store a row that names the content, or look whether it is to be unpinned. */
  predicate Tends(p: Proc, c: Cid)
  {
    InAddWindow(p, c) || ((p.CountRefs? || p.UnpinNow?) && p.cid == c)
  }

  ghost predicate Tended(w: World, c: Cid)
  {
    c in CidsOf(w.rows) || exists pid :: pid in w.procs && Tends(w.procs[pid], c)
  }

  ghost predicate NothingForgotten(w: World)
  {
    forall c :: c in w.node.pinned ==> Tended(w, c)
  }

  /** What the process remembers of its row is still what the table says. */
  predicate Remembers(rows: Rows, p: Proc)
  {
    && (p.PutAdd? || p.PutLink? || p.PutStore? ==>
          p.previous == if p.key in rows then Some(rows[p.key].cid) else None)
    && (p.DelUnlink? || p.DelRow? ==> p.key in rows && rows[p.key].cid == p.cid)
  }

  ghost predicate AllRemember(w: World)
  {
    forall pid :: pid in w.procs ==> Remembers(w.rows, w.procs[pid])
  }

  ghost predicate TendedByOthers(w: World, pid: nat, c: Cid)
  {
    c in CidsOf(w.rows) || exists other :: other in w.procs && other != pid && Tends(w.procs[other], c)
  }

  /** The content the process adds, stores or checks. */
  function Handled(p: Proc): Option<Cid>
  {
    match p
    case PutAdd(_, _, body, _) => Some(CidOf(body))
    case PutLink(_, row, _) => Some(row.cid)
    case PutStore(_, row, _) => Some(row.cid)
    case CountRefs(cid, _) => Some(cid)
    case UnpinNow(cid, _) => Some(cid)
    case _ => None
  }

  /** With this answer the process ends although its content is pinned. */
  predicate GivesUp(node: Node, cfg: Config, p: Proc, up: bool, reply: Reply)
  {
    match p
    case PutAdd(_, _, _, _) => reply.Lost?
    case PutLink(k, row, _) =>
      row.cid in node.pinned && !(reply.Done? && Accepted(cfg, k) && CanLink(node, FilePath(cfg, k)))
    case PutStore(_, row, _) => row.cid in node.pinned && !up
    case CountRefs(cid, _) => cid in node.pinned && !up
    case UnpinNow(cid, _) => cid in node.pinned && reply.Failed?
    case _ => false
  }

  /** The process ends, and nobody else looks after its pinned content. */
  ghost predicate Abandons(w: World, cfg: Config, a: nat, up: bool, reply: Reply)
    requires a in w.procs
  {
    GivesUp(w.node, cfg, w.procs[a], up, reply) && !TendedByOthers(w, a, Handled(w.procs[a]).value)
  }

  /** The process replaces or removes the only row of a content that it will not check afterwards. */
  predicate TakesLastRow(rows: Rows, p: Proc, c: Cid)
  {
    && (p.PutStore? || p.DelRow?) && p.key in rows && rows[p.key].cid == c
    && (p.PutStore? ==> c != p.row.cid && p.previous != Some(c))
    && (p.DelRow? ==> c != p.cid)
    && forall k :: k in rows && k != p.key ==> rows[k].cid != c
  }

  /** That content is pinned, and nobody else looks after it. */
  ghost predicate DropsARow(w: World, a: nat)
    requires a in w.procs
  {
    exists c :: c in w.node.pinned && TakesLastRow(w.rows, w.procs[a], c)
      && forall other :: other in w.procs && other != a ==> !Tends(w.procs[other], c)
  }

  /** The guard of a move, for any answer of the backends. */
  ghost predicate Heeds(w: World, cfg: Config, m: Move)
  {
    match m
    case Advance(a, up, reply) => a in w.procs ==> !Abandons(w, cfg, a, up, reply) && !(up && DropsARow(w, a))
    case _ => true
  }

  lemma OthersRemember(w: World, cfg: Config, a: nat, b: nat)
    requires a in w.procs && b in w.procs && a != b && !KeyWindowsOverlap(w) && Remembers(w.rows, w.procs[b])
    ensures Remembers(Act(w.rows, w.node, cfg, w.procs[a], true, Done).rows, w.procs[b])
  {
    var p, q := w.procs[a], w.procs[b];
    if (p.PutStore? || p.DelRow?) && InKeyWindow(q, p.key) {
      assert InKeyWindow(p, p.key);
    }
  }

  lemma MoverRemembers(rows: Rows, node: Node, cfg: Config, p: Proc)
    requires Remembers(rows, p)
    ensures var e := Act(rows, node, cfg, p, true, Done);
            Remembers(e.rows, e.next)
  {
  }

  lemma MoveKeepsMemory(w: World, cfg: Config, a: nat)
    requires a in w.procs && AllRemember(w) && !KeyWindowsOverlap(w)
    ensures AllRemember(Apply(w, cfg, Advance(a, true, Done)))
  {
    MoverRemembers(w.rows, w.node, cfg, w.procs[a]);
    forall b | b in w.procs && b != a
      ensures Remembers(Act(w.rows, w.node, cfg, w.procs[a], true, Done).rows, w.procs[b])
    {
      OthersRemember(w, cfg, a, b);
    }
  }

  // ---------------------------------------------------------------------------------------------
  // Exactly when a move forgets a pin.
  // ---------------------------------------------------------------------------------------------

  /** A content that a row names is named still, looked after by the mover, or loses its last row. */
  lemma NamedStaysTended(rows: Rows, node: Node, cfg: Config, p: Proc, up: bool, reply: Reply, c: Cid)
    requires c in CidsOf(rows)
    ensures var e := Act(rows, node, cfg, p, up, reply);
            c in CidsOf(e.rows) || Tends(e.next, c) || (up && TakesLastRow(rows, p, c))
  {
    var e := Act(rows, node, cfg, p, up, reply);
    if c !in CidsOf(e.rows) {
      var named :| named in rows && rows[named].cid == c;
      if p.PutStore? && up {
        assert e.rows[p.key].cid in CidsOf(e.rows);
      }
      forall k | k in rows && rows[k].cid == c ensures up && (p.PutStore? || p.DelRow?) && p.key == k {
        if k in e.rows {
          assert e.rows[k].cid in CidsOf(e.rows);
        }
      }
    }
  }

  /** A content the mover looks after is named, looked after still, unpinned, or given up. */
  lemma MoverKeepsTending(rows: Rows, node: Node, cfg: Config, p: Proc, up: bool, reply: Reply, c: Cid)
    requires Tends(p, c)
    ensures var e := Act(rows, node, cfg, p, up, reply);
            c in CidsOf(e.rows) || Tends(e.next, c) || c !in e.node.pinned
            || (GivesUp(node, cfg, p, up, reply) && Handled(p) == Some(c))
  {
    if p.PutStore? && up {
      assert rows[p.key := p.row][p.key].cid == c;
    }
  }

  /** A content that becomes pinned is looked after by the process that added it, or given up. */
  lemma NewPinIsTended(rows: Rows, node: Node, cfg: Config, p: Proc, up: bool, reply: Reply, c: Cid)
    requires c !in node.pinned
    ensures var e := Act(rows, node, cfg, p, up, reply);
            c in e.node.pinned ==> Tends(e.next, c) || (GivesUp(node, cfg, p, up, reply) && Handled(p) == Some(c))
  {
  }

  lemma HeedingForgetsNothing(w: World, cfg: Config, a: nat, up: bool, reply: Reply)
    requires a in w.procs && NothingForgotten(w) && Heeds(w, cfg, Advance(a, up, reply))
    ensures NothingForgotten(Apply(w, cfg, Advance(a, up, reply)))
  {
    var p, w' := w.procs[a], Apply(w, cfg, Advance(a, up, reply));
    forall c | c in w'.node.pinned ensures Tended(w', c) {
      assert a in w'.procs;
      if other :| other in w.procs && other != a && Tends(w.procs[other], c) {
        assert other in w'.procs && w'.procs[other] == w.procs[other];
      } else if c in CidsOf(w.rows) {
        PinnedStays(w.rows, w.node, cfg, p, up, reply, c);
        NamedStaysTended(w.rows, w.node, cfg, p, up, reply, c);
      } else if c in w.node.pinned {
        assert Tended(w, c);
        MoverKeepsTending(w.rows, w.node, cfg, p, up, reply, c);
      } else {
        NewPinIsTended(w.rows, w.node, cfg, p, up, reply, c);
      }
    }
  }

  /** Replacing and removing rows is no business of the node. */
  lemma PinnedStays(rows: Rows, node: Node, cfg: Config, p: Proc, up: bool, reply: Reply, c: Cid)
    ensures var e := Act(rows, node, cfg, p, up, reply);
            TakesLastRow(rows, p, c) ==> (c in e.node.pinned <==> c in node.pinned)
  {
  }

  lemma AbandonedIsForgotten(w: World, cfg: Config, a: nat, up: bool, reply: Reply)
    requires a in w.procs && Abandons(w, cfg, a, up, reply)
    ensures !NothingForgotten(Apply(w, cfg, Advance(a, up, reply)))
  {
    var c, w' := Handled(w.procs[a]).value, Apply(w, cfg, Advance(a, up, reply));
    GivingUpEnds(w.rows, w.node, cfg, w.procs[a], up, reply);
    assert w'.procs == w.procs[a := Ended] && w'.rows == w.rows;
    forall pid | pid in w'.procs ensures !Tends(w'.procs[pid], c) {
    }
    assert !Tended(w', c);
  }

  lemma GivingUpEnds(rows: Rows, node: Node, cfg: Config, p: Proc, up: bool, reply: Reply)
    requires GivesUp(node, cfg, p, up, reply)
    ensures var e := Act(rows, node, cfg, p, up, reply);
            e.rows == rows && e.next == Ended && Handled(p).value in e.node.pinned
  {
  }

  lemma DroppedIsForgotten(w: World, cfg: Config, a: nat, reply: Reply)
    requires a in w.procs && DropsARow(w, a)
    ensures !NothingForgotten(Apply(w, cfg, Advance(a, true, reply)))
  {
    var c :| c in w.node.pinned && TakesLastRow(w.rows, w.procs[a], c)
             && forall other :: other in w.procs && other != a ==> !Tends(w.procs[other], c);
    var w' := Apply(w, cfg, Advance(a, true, reply));
    TakenRowIsGone(w.rows, w.node, cfg, w.procs[a], reply, c);
    forall pid | pid in w'.procs ensures !Tends(w'.procs[pid], c) {
    }
    assert !Tended(w', c);
  }

  lemma TakenRowIsGone(rows: Rows, node: Node, cfg: Config, p: Proc, reply: Reply, c: Cid)
    requires TakesLastRow(rows, p, c)
    ensures var e := Act(rows, node, cfg, p, true, reply);
            c !in CidsOf(e.rows) && !Tends(e.next, c) && e.node == node
  {
  }

  /** For any move and any answers: a pin is forgotten exactly when the guard fails. */
  lemma MoveForgetsIff(w: World, cfg: Config, m: Move)
    requires NothingForgotten(w)
    ensures NothingForgotten(Apply(w, cfg, m)) <==> Heeds(w, cfg, m)
  {
    match m {
      case Begin(pid, p) => BeginForgetsNothing(w, cfg, pid, p);
      case Advance(a, up, reply) =>
        if a !in w.procs {
        } else if Heeds(w, cfg, m) {
          HeedingForgetsNothing(w, cfg, a, up, reply);
        } else if Abandons(w, cfg, a, up, reply) {
          AbandonedIsForgotten(w, cfg, a, up, reply);
        } else {
          DroppedIsForgotten(w, cfg, a, reply);
        }
      case CollectBlocks(doomed) =>
        forall c | c in w.node.pinned ensures Tended(Apply(w, cfg, m), c) {
          assert Tended(w, c);
        }
    }
  }

  lemma BeginForgetsNothing(w: World, cfg: Config, pid: nat, p: Proc)
    requires NothingForgotten(w)
    ensures NothingForgotten(Apply(w, cfg, Begin(pid, p)))
  {
    var w' := Apply(w, cfg, Begin(pid, p));
    forall c | c in w'.node.pinned ensures Tended(w', c) {
      assert Tended(w, c);
      if other :| other in w.procs && Tends(w.procs[other], c) {
        assert other in w'.procs && w'.procs[other] == w.procs[other];
      }
    }
  }

  // ---------------------------------------------------------------------------------------------
  // Whole interleavings.
  // ---------------------------------------------------------------------------------------------

  /** Every move of the history meets its guard. */
  ghost predicate HeedingPlay(w: World, cfg: Config, ms: seq<Move>)
  {
    ms != [] ==>
      HeedingPlay(w, cfg, ms[..|ms| - 1]) && Heeds(Play(w, cfg, ms[..|ms| - 1]), cfg, ms[|ms| - 1])
  }

  /** No pin is forgotten at any point of the history. */
  ghost predicate NeverForgets(w: World, cfg: Config, ms: seq<Move>)
  {
    NothingForgotten(Play(w, cfg, ms)) && (ms != [] ==> NeverForgets(w, cfg, ms[..|ms| - 1]))
  }

  /** A history forgets no pin at any point exactly when all its moves meet their guards. */
  lemma {:induction false} PlayForgetsIff(cfg: Config, ms: seq<Move>)
    ensures NeverForgets(START, cfg, ms) <==> HeedingPlay(START, cfg, ms)
  {
    if ms == [] {
    } else {
      PlayForgetsIff(cfg, ms[..|ms| - 1]);
      if NeverForgets(START, cfg, ms[..|ms| - 1]) {
        MoveForgetsIff(Play(START, cfg, ms[..|ms| - 1]), cfg, ms[|ms| - 1]);
      }
    }
  }

  /** No request or orphan check is under way; trims may be. */
  predicate Settled(w: World)
  {
    forall pid :: pid in w.procs ==> w.procs[pid].TrimProbe? || w.procs[pid].TrimRemove? || w.procs[pid].Ended?
  }

  /**
   Once such a history has settled its pins are rows' contents, and exactly those if the windows of
   `PinSafety` stayed apart as well.
   */
  lemma SettledPins(cfg: Config, ms: seq<Move>)
    requires HeedingPlay(START, cfg, ms) && Settled(Play(START, cfg, ms))
    ensures var w := Play(START, cfg, ms);
            && w.node.pinned <= CidsOf(w.rows)
            && (WindowsApart(START, cfg, ms) ==> w.node.pinned == CidsOf(w.rows))
  {
    PlayForgetsIff(cfg, ms);
    var w := Play(START, cfg, ms);
    forall c | c in w.node.pinned ensures c in CidsOf(w.rows) {
      assert Tended(w, c);
    }
    if WindowsApart(START, cfg, ms) {
      PinSafety(cfg, ms);
    }
  }

  // ---------------------------------------------------------------------------------------------
  // A condition on keys that is enough.
  // ---------------------------------------------------------------------------------------------

  /** A process that remembers its row takes no row it will not check. */
  lemma RememberedIsNotDropped(w: World, a: nat)
    requires a in w.procs && Remembers(w.rows, w.procs[a])
    ensures !DropsARow(w, a)
  {
  }

  /** The backends answer, and no content is left behind by a link that cannot be made. */
  ghost predicate Smooth(w: World, cfg: Config, m: Move)
  {
    match m
    case Advance(a, up, reply) => up && reply.Done? && (a in w.procs ==> !Abandons(w, cfg, a, up, reply))
    case _ => true
  }

  /** Every move is smooth, and before each of them no two processes are in the window of one key. */
  ghost predicate Orderly(w: World, cfg: Config, ms: seq<Move>)
  {
    ms != [] ==>
      var before := Play(w, cfg, ms[..|ms| - 1]);
      Orderly(w, cfg, ms[..|ms| - 1]) && !KeyWindowsOverlap(before) && Smooth(before, cfg, ms[|ms| - 1])
  }

  lemma {:induction false} OrderlyHeeds(cfg: Config, ms: seq<Move>)
    requires Orderly(START, cfg, ms)
    ensures HeedingPlay(START, cfg, ms) && AllRemember(Play(START, cfg, ms))
  {
    if ms == [] {
    } else {
      var before, m := Play(START, cfg, ms[..|ms| - 1]), ms[|ms| - 1];
      OrderlyHeeds(cfg, ms[..|ms| - 1]);
      if m.Advance? && m.pid in before.procs {
        RememberedIsNotDropped(before, m.pid);
        MoveKeepsMemory(before, cfg, m.pid);
      }
    }
  }

  /** So no pin is forgotten if no two requests overlap between reading and replacing or removing one row. */
  lemma OrderlyForgetsNoPin(cfg: Config, ms: seq<Move>)
    requires Orderly(START, cfg, ms)
    ensures NeverForgets(START, cfg, ms)
    ensures var w := Play(START, cfg, ms);
            && (Settled(w) ==> w.node.pinned <= CidsOf(w.rows))
            && (Settled(w) && WindowsApart(START, cfg, ms) ==> w.node.pinned == CidsOf(w.rows))
  {
    OrderlyHeeds(cfg, ms);
    PlayForgetsIff(cfg, ms);
    if Settled(Play(START, cfg, ms)) {
      SettledPins(cfg, ms);
    }
  }

  // ---------------------------------------------------------------------------------------------
  // A forgotten pin.
  // ---------------------------------------------------------------------------------------------

  function BothRead(k: ObjectKey, first: Bytes, second: Bytes): seq<Move>
  {
    [Begin(0, PutRead(k, None, first)), Begin(1, PutRead(k, None, second)), Go(0), Go(1), Go(0)]
  }

  const BOTH_STORE: seq<Move> := [Go(0), Go(0), Go(1), Go(1), Go(1)]

  lemma AfterBothRead(cfg: Config, k: ObjectKey, first: Bytes, second: Bytes)
    requires Accepted(cfg, k)
    ensures Play(START, cfg, BothRead(k, first, second)) ==
            World(map[], Add(EMPTY_NODE, first, Done).0,
                  map[0 := PutLink(k, RowOf(cfg, k, first), None), 1 := PutAdd(k, None, second, None)])
  {
    var b0, b1 := Begin(0, PutRead(k, None, first)), Begin(1, PutRead(k, None, second));
    PlayThree(START, cfg, b0, b1, Go(0));
    PlayFive(START, cfg, b0, b1, Go(0), Go(1), Go(0));
    var w2 := Apply(Apply(START, cfg, b0), cfg, b1);
    GoRead(w2, cfg, 0, k, first);
    var w3 := Apply(w2, cfg, Go(0));
    GoRead(w3, cfg, 1, k, second);
    GoAdd(Apply(w3, cfg, Go(1)), cfg, 0, k, first, None);
  }

  lemma AfterBothStore(w: World, cfg: Config, k: ObjectKey, first: Bytes, second: Bytes)
    requires Accepted(cfg, k) && FilePath(cfg, k) != []
    requires w == World(map[], Add(EMPTY_NODE, first, Done).0,
                        map[0 := PutLink(k, RowOf(cfg, k, first), None), 1 := PutAdd(k, None, second, None)])
    ensures var w' := Play(w, cfg, BOTH_STORE);
            && w'.rows == map[k := RowOf(cfg, k, second)] && w'.procs == map[0 := Ended, 1 := Ended]
            && w'.node.pinned == {CidOf(first), CidOf(second)}
  {
    PlayThree(w, cfg, Go(0), Go(0), Go(1));
    PlayFive(w, cfg, Go(0), Go(0), Go(1), Go(1), Go(1));
    GoLink(w, cfg, 0, k, RowOf(cfg, k, first), None);
    var w1 := Apply(w, cfg, Go(0));
    GoStore(w1, cfg, 0, k, RowOf(cfg, k, first), None);
    var w2 := Apply(w1, cfg, Go(0));
    GoAdd(w2, cfg, 1, k, second, None);
    var w3 := Apply(w2, cfg, Go(1));
    GoLink(w3, cfg, 1, k, RowOf(cfg, k, second), None);
    GoStore(Apply(w3, cfg, Go(1)), cfg, 1, k, RowOf(cfg, k, second), None);
  }

  /**
   Two healthy puts of different bodies under one key, both reading before either stores: both succeed,
   the second row stays, and the first body is pinned although nothing names it.
   */
  lemma LostUpdateForgetsAPin(cfg: Config, k: ObjectKey, first: Bytes, second: Bytes)
    requires Accepted(cfg, k) && FilePath(cfg, k) != [] && first != second
    ensures var w := Play(START, cfg, BothRead(k, first, second) + BOTH_STORE);
            && Settled(w) && w.rows == map[k := RowOf(cfg, k, second)]
            && CidOf(first) in w.node.pinned && !Tended(w, CidOf(first))
  {
    AfterBothRead(cfg, k, first, second);
    AfterBothStore(Play(START, cfg, BothRead(k, first, second)), cfg, k, first, second);
    PlayConcat(START, cfg, BothRead(k, first, second), BOTH_STORE);
  }
}
