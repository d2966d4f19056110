/**
 Where the file tree sets limits: puts that cannot be linked and lose a pin, trims that come too late,
 trims that go too far and trims that stop short of their promise.  Each bad case is reached from the
 empty bridge without any failure; where histories are compared the condition is exact.
 */
module TreeLimits {
  import opened Options
  import opened Splitting
  import opened Paths
  import opened SqlLike
  import opened IpfsNode
  import opened Database
  import opened Bridge
  import opened Pins
  import opened Tree
  import opened NormalKeys
  import opened Mirror

  // ---------------------------------------------------------------------------------------------
  // A put that loses a pin.
  // ---------------------------------------------------------------------------------------------

  /**
   Two keys, one on the path of the other in either direction, are enough.  The second may be one
   such as `a/..`, which resolves to its bucket's own directory.
   */
  lemma KeyOnAPathLeaks(cfg: Config, one: ObjectKey, two: ObjectKey, first: Bytes, second: Bytes)
    requires Accepted(cfg, one) && Accepted(cfg, two) && FilePath(cfg, one) != [] && first != second
    requires FilePath(cfg, one) < FilePath(cfg, two) || FilePath(cfg, two) < FilePath(cfg, one)
    ensures var s1 := StoreObject(EMPTY_CORE, cfg, one, None, first, HEALTHY_PUT).0;
            var (s2, st) := StoreObject(s1, cfg, two, None, second, HEALTHY_PUT);
            st.Error500? && CidOf(second) in s2.node.pinned && !NoLeak(s2)
  {
    var s1 := StoreObject(EMPTY_CORE, cfg, one, None, first, HEALTHY_PUT).0;
    HealthyPut(EMPTY_CORE, cfg, one, None, first);
    HealthyPutLeaksIff(EMPTY_CORE, cfg, one, None, first);
    assert FilePath(cfg, one) in s1.node.files;
    assert s1.unpins == multiset{};
    HealthyPutFailsIff(s1, cfg, two, None, second);
    HealthyPutLeaksIff(s1, cfg, two, None, second);
  }

  // ---------------------------------------------------------------------------------------------
  // A trim that comes too late.
  // ---------------------------------------------------------------------------------------------

  /** A trim that is still pending when its key is live again is after that key, or after nothing. */
  lemma LateQuery(rows: Rows, cfg: Config, k: ObjectKey)
    requires k in rows && k.key != "" && Accepted(cfg, k)
    ensures TrimTarget(rows, cfg, k) == if LooksEmpty(rows, k.bucket, k.key) then Some(FilePath(cfg, k)) else None
  {
    if !LooksEmpty(rows, k.bucket, k.key) {
      NothingEmptyAbove(rows, k.bucket, k.key);
    } else {
      if Parent(k.key) != "" && LooksEmpty(rows, k.bucket, Parent(k.key)) {
        LooksEmptyIsSafe(rows, k.bucket, Parent(k.key), k);
      }
      AnswerIff(rows, k.bucket, k.key, k.key);
    }
  }

  /** A removal at or above a live file takes it, and then the object cannot be deleted any more. */
  lemma LateRemoval(s: Core, cfg: Config, k: ObjectKey, bucket: string, path: Path)
    requires Accepted(cfg, k) && k in s.rows
    requires Remove(bucket, path) in s.trims && path != [] && path <= FilePath(cfg, k) && Exists(s.node, path)
    ensures var s' := RunTrim(s, cfg, Remove(bucket, path), HEALTHY_TRIM);
            && k in s'.rows && FilePath(cfg, k) !in s'.node.files
            && RemoveObject(s', cfg, k, HEALTHY_DELETE) == (s', Error500)
  {
  }

  /** Put, delete and put again on an empty bridge, all healthy. */
  lemma PutDeletePut(cfg: Config, k: ObjectKey, first: Bytes, second: Bytes)
    requires cfg.trimEmptyFolders && Accepted(cfg, k) && FilePath(cfg, k) != []
    ensures var s1 := StoreObject(EMPTY_CORE, cfg, k, None, first, HEALTHY_PUT).0;
            var s2 := RemoveObject(s1, cfg, k, HEALTHY_DELETE).0;
            var (s3, st) := StoreObject(s2, cfg, k, None, second, HEALTHY_PUT);
            && st.Ok200? && PinSafe(s3) && s3.rows.Keys == {k} && s3.trims == multiset{Find(k)}
            && s3.node.files == map[FilePath(cfg, k) := CidOf(second)] && s3.node.dirs == Above(FilePath(cfg, k))
  {
    var s1 := StoreObject(EMPTY_CORE, cfg, k, None, first, HEALTHY_PUT).0;
    HealthyPut(EMPTY_CORE, cfg, k, None, first);
    StoreKeepsPins(EMPTY_CORE, cfg, k, None, first, HEALTHY_PUT);
    var s2 := RemoveObject(s1, cfg, k, HEALTHY_DELETE).0;
    HealthyDelete(s1, cfg, k);
    RemoveKeepsPins(s1, cfg, k, HEALTHY_DELETE);
    assert s2.node.files == map[] && s2.node.dirs == Above(FilePath(cfg, k));
    HealthyPut(s2, cfg, k, None, second);
    StoreKeepsPins(s2, cfg, k, None, second, HEALTHY_PUT);
    assert s2.node.dirs + Above(FilePath(cfg, k)) == Above(FilePath(cfg, k));
  }

  /** For every accepted key there is a healthy history that strands the live object. */
  lemma LateTrimStrands(cfg: Config, k: ObjectKey, first: Bytes, second: Bytes)
    requires cfg.trimEmptyFolders && Accepted(cfg, k) && FilePath(cfg, k) != [] && k.key != ""
    ensures var s1 := StoreObject(EMPTY_CORE, cfg, k, None, first, HEALTHY_PUT).0;
            var s2 := RemoveObject(s1, cfg, k, HEALTHY_DELETE).0;
            var s3 := StoreObject(s2, cfg, k, None, second, HEALTHY_PUT).0;
            var s4 := RunTrim(s3, cfg, Find(k), HEALTHY_TRIM);
            var s5 := RunTrim(s4, cfg, Remove(k.bucket, FilePath(cfg, k)), HEALTHY_TRIM);
            && s5.rows.Keys == {k} && PinSafe(s5)
            && s5.node.files == map[] && s5.node.dirs == Above(FilePath(cfg, k))
            && RemoveObject(s5, cfg, k, HEALTHY_DELETE) == (s5, Error500)
  {
    var s1 := StoreObject(EMPTY_CORE, cfg, k, None, first, HEALTHY_PUT).0;
    var s2 := RemoveObject(s1, cfg, k, HEALTHY_DELETE).0;
    var s3 := StoreObject(s2, cfg, k, None, second, HEALTHY_PUT).0;
    PutDeletePut(cfg, k, first, second);
    LooksEmptyMeans(s3.rows, k.bucket, k.key);
    NotBelowItself(k.key);
    LateQuery(s3.rows, cfg, k);
    HealthyFind(s3, cfg, k);
    BothPhases(s3, cfg, k, FilePath(cfg, k));
    var node := Unlink(s3.node, FilePath(cfg, k), Done).0;
    assert node.files == map[] && node.dirs == Above(FilePath(cfg, k));
    WithoutFileUndeletable(s3.(trims := multiset{}, node := node), cfg, k);
  }

  /**
   The stranded object becomes deletable once something is put below its path, which is a directory
   then.  The delete succeeds and takes the file of the object below.
   */
  lemma PutBelowStrandsIt(cfg: Config, k: ObjectKey, low: ObjectKey, first: Bytes, second: Bytes, third: Bytes)
    requires cfg.trimEmptyFolders && Accepted(cfg, k) && FilePath(cfg, k) != [] && k.key != ""
    requires Accepted(cfg, low) && FilePath(cfg, k) < FilePath(cfg, low)
    ensures var s1 := StoreObject(EMPTY_CORE, cfg, k, None, first, HEALTHY_PUT).0;
            var s2 := RemoveObject(s1, cfg, k, HEALTHY_DELETE).0;
            var s3 := StoreObject(s2, cfg, k, None, second, HEALTHY_PUT).0;
            var s4 := RunTrim(s3, cfg, Find(k), HEALTHY_TRIM);
            var s5 := RunTrim(s4, cfg, Remove(k.bucket, FilePath(cfg, k)), HEALTHY_TRIM);
            var (s6, put) := StoreObject(s5, cfg, low, None, third, HEALTHY_PUT);
            var (s7, deleted) := RemoveObject(s6, cfg, k, HEALTHY_DELETE);
            && put.Ok200? && deleted.NoContent204?
            && low in s7.rows && FilePath(cfg, low) !in s7.node.files
            && RemoveObject(s7, cfg, low, HEALTHY_DELETE) == (s7, Error500)
  {
    var s1 := StoreObject(EMPTY_CORE, cfg, k, None, first, HEALTHY_PUT).0;
    var s2 := RemoveObject(s1, cfg, k, HEALTHY_DELETE).0;
    var s3 := StoreObject(s2, cfg, k, None, second, HEALTHY_PUT).0;
    var s4 := RunTrim(s3, cfg, Find(k), HEALTHY_TRIM);
    var s5 := RunTrim(s4, cfg, Remove(k.bucket, FilePath(cfg, k)), HEALTHY_TRIM);
    LateTrimStrands(cfg, k, first, second);
    PutThenDeleteAbove(s5, cfg, k, low, third);
  }

  lemma PutThenDeleteAbove(s: Core, cfg: Config, k: ObjectKey, low: ObjectKey, body: Bytes)
    requires Accepted(cfg, k) && Accepted(cfg, low) && [] < FilePath(cfg, k) < FilePath(cfg, low)
    requires PinSafe(s) && k in s.rows && s.node.files == map[] && s.node.dirs == Above(FilePath(cfg, k))
    ensures var (s6, put) := StoreObject(s, cfg, low, None, body, HEALTHY_PUT);
            var (s7, deleted) := RemoveObject(s6, cfg, k, HEALTHY_DELETE);
            && put.Ok200? && deleted.NoContent204?
            && low in s7.rows && FilePath(cfg, low) !in s7.node.files
            && RemoveObject(s7, cfg, low, HEALTHY_DELETE) == (s7, Error500)
  {
    HealthyPut(s, cfg, low, None, body);
    StoreKeepsPins(s, cfg, low, None, body, HEALTHY_PUT);
    var s6 := StoreObject(s, cfg, low, None, body, HEALTHY_PUT).0;
    assert FilePath(cfg, k) in s6.node.dirs;
    HealthyDelete(s6, cfg, k);
    WithoutFileUndeletable(RemoveObject(s6, cfg, k, HEALTHY_DELETE).0, cfg, low);
  }

  // ---------------------------------------------------------------------------------------------
  // Two keys with one file.
  // ---------------------------------------------------------------------------------------------

  /**
   A healthy delete takes another object's file exactly when it resolves to the same path or above.
   Above it can only be a directory: the deleted object has lost its own file before.
   */
  lemma DeleteTakesFileIff(s: Core, cfg: Config, k: ObjectKey, other: ObjectKey)
    requires PinSafe(s) && k in s.rows && other in s.rows && Accepted(cfg, k) && FilePath(cfg, k) != []
    requires Exists(s.node, FilePath(cfg, k)) && FilePath(cfg, other) in s.node.files
    ensures FilePath(cfg, other) !in RemoveObject(s, cfg, k, HEALTHY_DELETE).0.node.files
            <==> FilePath(cfg, k) <= FilePath(cfg, other)
  {
    HealthyDelete(s, cfg, k);
  }

  /**
   Keys such as `a/b` and `a//b` resolve to one path.  Put both and delete one: the other is live,
   without its file and undeletable.
   */
  lemma AliasStrands(cfg: Config, k: ObjectKey, other: ObjectKey, first: Bytes, second: Bytes)
    requires Accepted(cfg, k) && Accepted(cfg, other) && FilePath(cfg, k) != [] && k != other
    requires FilePath(cfg, k) == FilePath(cfg, other)
    ensures var s1 := StoreObject(EMPTY_CORE, cfg, k, None, first, HEALTHY_PUT).0;
            var s2 := StoreObject(s1, cfg, other, None, second, HEALTHY_PUT).0;
            var (s3, st) := RemoveObject(s2, cfg, k, HEALTHY_DELETE);
            && st.NoContent204? && other in s3.rows && FilePath(cfg, other) !in s3.node.files
            && RemoveObject(s3, cfg, other, HEALTHY_DELETE) == (s3, Error500)
  {
    var s1 := StoreObject(EMPTY_CORE, cfg, k, None, first, HEALTHY_PUT).0;
    HealthyPut(EMPTY_CORE, cfg, k, None, first);
    StoreKeepsPins(EMPTY_CORE, cfg, k, None, first, HEALTHY_PUT);
    var s2 := StoreObject(s1, cfg, other, None, second, HEALTHY_PUT).0;
    HealthyPut(s1, cfg, other, None, second);
    StoreKeepsPins(s1, cfg, other, None, second, HEALTHY_PUT);
    var s3 := RemoveObject(s2, cfg, k, HEALTHY_DELETE).0;
    HealthyDelete(s2, cfg, k);
    WithoutFileUndeletable(s3, cfg, other);
  }

  // ---------------------------------------------------------------------------------------------
  // Put two keys, delete one, and let its trim run.
  // ---------------------------------------------------------------------------------------------

  function PutOf(k: ObjectKey, body: Bytes): Event
  {
    Put(PutRequest(k, None, None, None, body), HEALTHY_PUT)
  }

  function UpToDelete(k: ObjectKey, f: ObjectKey, first: Bytes, second: Bytes): seq<Event>
  {
    [PutOf(k, first), PutOf(f, second), Delete(f, None, HEALTHY_DELETE)]
  }

  /** The history in which both phases of the trim have run; `target` is what the first one answered. */
  function WithTrim(k: ObjectKey, f: ObjectKey, first: Bytes, second: Bytes, target: Path): seq<Event>
  {
    UpToDelete(k, f, first, second)
    + [TaskTrim(Find(f), HEALTHY_TRIM)] + [TaskTrim(Remove(f.bucket, target), HEALTHY_TRIM)]
  }

  lemma RunNext(cfg: Config, es: seq<Event>, e: Event)
    ensures Run(cfg, es + [e]) == Step(Run(cfg, es), cfg, e).0
  {
    assert (es + [e])[..|es|] == es;
  }

  lemma RunTwoPuts(cfg: Config, k: ObjectKey, f: ObjectKey, first: Bytes, second: Bytes)
    requires Accepted(cfg, k) && Accepted(cfg, f) && Apart(FilePath(cfg, k), FilePath(cfg, f))
    ensures var s := Run(cfg, [PutOf(k, first), PutOf(f, second)]).core;
            && s.rows.Keys == {k, f} && s.trims == multiset{}
            && s.node.files == map[FilePath(cfg, k) := CidOf(first), FilePath(cfg, f) := CidOf(second)]
            && s.node.dirs == Above(FilePath(cfg, k)) + Above(FilePath(cfg, f))
  {
    RunNext(cfg, [], PutOf(k, first));
    RunNext(cfg, [PutOf(k, first)], PutOf(f, second));
    assert [] + [PutOf(k, first)] == [PutOf(k, first)];
    assert [PutOf(k, first)] + [PutOf(f, second)] == [PutOf(k, first), PutOf(f, second)];
    HealthyPut(EMPTY_CORE, cfg, k, None, first);
    HealthyPut(Run(cfg, [PutOf(k, first)]).core, cfg, f, None, second);
  }

  lemma RunUpToDelete(cfg: Config, k: ObjectKey, f: ObjectKey, first: Bytes, second: Bytes)
    requires cfg.trimEmptyFolders && Accepted(cfg, k) && Accepted(cfg, f) && Apart(FilePath(cfg, k), FilePath(cfg, f))
    ensures var s := Run(cfg, UpToDelete(k, f, first, second)).core;
            && s.rows.Keys == {k} && s.trims == multiset{Find(f)}
            && s.node.files == map[FilePath(cfg, k) := CidOf(first)]
            && s.node.dirs == Above(FilePath(cfg, k)) + Above(FilePath(cfg, f))
  {
    var es := [PutOf(k, first), PutOf(f, second)];
    RunTwoPuts(cfg, k, f, first, second);
    RunIsPinSafe(cfg, es);
    RunNext(cfg, es, Delete(f, None, HEALTHY_DELETE));
    assert es + [Delete(f, None, HEALTHY_DELETE)] == UpToDelete(k, f, first, second);
    DeleteOneOfTwo(Run(cfg, es).core, cfg, k, f);
  }

  lemma DeleteOneOfTwo(s: Core, cfg: Config, k: ObjectKey, f: ObjectKey)
    requires cfg.trimEmptyFolders && Accepted(cfg, f) && Apart(FilePath(cfg, k), FilePath(cfg, f))
    requires PinSafe(s) && s.rows.Keys == {k, f} && k != f && s.trims == multiset{}
    requires s.node.files.Keys == {FilePath(cfg, k), FilePath(cfg, f)}
    requires s.node.dirs == Above(FilePath(cfg, k)) + Above(FilePath(cfg, f))
    ensures var s' := RemoveObject(s, cfg, f, HEALTHY_DELETE).0;
            && s'.rows.Keys == {k} && s'.trims == multiset{Find(f)}
            && s'.node.files == map[FilePath(cfg, k) := s.node.files[FilePath(cfg, k)]]
            && s'.node.dirs == s.node.dirs
  {
    HealthyDelete(s, cfg, f);
    assert s.rows.Keys - {f} == {k};
    forall d | d in s.node.dirs ensures !(FilePath(cfg, f) <= d) {
      assert d < FilePath(cfg, k) || d < FilePath(cfg, f);
    }
  }

  /** What both phases of a trim change on a healthy backend. */
  lemma BothPhases(s: Core, cfg: Config, f: ObjectKey, t: Path)
    requires s.trims == multiset{Find(f)}
    requires var target := TrimTarget(s.rows, cfg, f); t == if target.Some? then target.value else []
    ensures RunTrim(RunTrim(s, cfg, Find(f), HEALTHY_TRIM), cfg, Remove(f.bucket, t), HEALTHY_TRIM)
            == s.(trims := multiset{}, node := Unlink(s.node, t, Done).0)
  {
    HealthyFind(s, cfg, f);
    var none: multiset<TrimJob> := multiset{};
    assert s.trims - multiset{Find(f)} == none;
    assert none + multiset{Remove(f.bucket, t)} == multiset{Remove(f.bucket, t)};
    assert multiset{Remove(f.bucket, t)} - multiset{Remove(f.bucket, t)} == none;
  }

  /** A trim that has run unlinks its target and leaves nothing pending. */
  lemma RunWithTrim(cfg: Config, k: ObjectKey, f: ObjectKey, first: Bytes, second: Bytes, t: Path)
    requires cfg.trimEmptyFolders && Accepted(cfg, k) && Accepted(cfg, f) && Apart(FilePath(cfg, k), FilePath(cfg, f))
    requires var target := TrimTarget(Run(cfg, UpToDelete(k, f, first, second)).core.rows, cfg, f);
             t == if target.Some? then target.value else []
    ensures var s := Run(cfg, UpToDelete(k, f, first, second)).core;
            Run(cfg, WithTrim(k, f, first, second, t)).core == s.(trims := multiset{}, node := Unlink(s.node, t, Done).0)
  {
    var es := UpToDelete(k, f, first, second);
    RunUpToDelete(cfg, k, f, first, second);
    RunTrimNext(cfg, es, Find(f));
    RunTrimNext(cfg, es + [TaskTrim(Find(f), HEALTHY_TRIM)], Remove(f.bucket, t));
    BothPhases(Run(cfg, es).core, cfg, f, t);
  }

  lemma RunTrimNext(cfg: Config, es: seq<Event>, job: TrimJob)
    ensures Run(cfg, es + [TaskTrim(job, HEALTHY_TRIM)]).core == RunTrim(Run(cfg, es).core, cfg, job, HEALTHY_TRIM)
  {
    RunNext(cfg, es, TaskTrim(job, HEALTHY_TRIM));
  }

  /** The count of the directory takes the key in. */
  predicate Counts(bucket: string, a: string, k: ObjectKey)
  {
    k.bucket == bucket && Like(a + "/%", k.key)
  }

  /**
   The topmost ancestor of `f` whose count leaves out `k` resolves to the file of `k` or above it, but
   not to the root, which cannot be removed.
   */
  predicate Overreaches(cfg: Config, f: ObjectKey, k: ObjectKey)
  {
    exists a :: a in Ancestors(f.key)
      && !Counts(f.bucket, a, k) && (Parent(a) == "" || Counts(f.bucket, Parent(a), k))
      && Accepted(cfg, ObjectKey(f.bucket, a)) && [] < FilePath(cfg, ObjectKey(f.bucket, a)) <= FilePath(cfg, k)
  }

  lemma LooksEmptyIff(rows: Rows, bucket: string, a: string, k: ObjectKey)
    requires rows.Keys == {k}
    ensures LooksEmpty(rows, bucket, a) <==> !Counts(bucket, a, k)
  {
    LooksEmptyMeans(rows, bucket, a);
  }

  /** With one live key the topmost ancestor is told from the two keys alone. */
  lemma OverreachesIff(rows: Rows, cfg: Config, f: ObjectKey, k: ObjectKey)
    requires rows.Keys == {k}
    ensures var target := TrimTarget(rows, cfg, f);
            (target.Some? && [] < target.value <= FilePath(cfg, k)) <==> Overreaches(cfg, f, k)
  {
    var answer := ShallowestEmpty(rows, f.bucket, f.key);
    forall a ensures answer == Some(a) <==>
                     a in Ancestors(f.key) && !Counts(f.bucket, a, k)
                     && (Parent(a) == "" || Counts(f.bucket, Parent(a), k)) {
      AnswerIff(rows, f.bucket, f.key, a);
      LooksEmptyIff(rows, f.bucket, a, k);
      LooksEmptyIff(rows, f.bucket, Parent(a), k);
    }
  }

  /**
   Put two keys that are not on each other's path, delete one and let its trim run: the other object
   loses its file exactly when the deleted key overreaches it, and is then undeletable.
   */
  lemma StrandedIff(cfg: Config, k: ObjectKey, f: ObjectKey, first: Bytes, second: Bytes, t: Path)
    requires cfg.trimEmptyFolders && Accepted(cfg, k) && Accepted(cfg, f) && Apart(FilePath(cfg, k), FilePath(cfg, f))
    requires var target := TrimTarget(Run(cfg, UpToDelete(k, f, first, second)).core.rows, cfg, f);
             t == if target.Some? then target.value else []
    ensures var s := Run(cfg, WithTrim(k, f, first, second, t)).core;
            && s.rows.Keys == {k}
            && (FilePath(cfg, k) !in s.node.files <==> Overreaches(cfg, f, k))
            && (Overreaches(cfg, f, k) ==> RemoveObject(s, cfg, k, HEALTHY_DELETE) == (s, Error500))
  {
    var s := Run(cfg, UpToDelete(k, f, first, second)).core;
    RunUpToDelete(cfg, k, f, first, second);
    RunWithTrim(cfg, k, f, first, second, t);
    OverreachesIff(s.rows, cfg, f, k);
    if [] < t <= FilePath(cfg, k) {
      assert t == FilePath(cfg, k) || t in Above(FilePath(cfg, k));
      UnlinkTakes(s.node, t, FilePath(cfg, k));
      WithoutFileUndeletable(s.(trims := multiset{}, node := Unlink(s.node, t, Done).0), cfg, k);
    }
  }

  lemma UnlinkTakes(n: Node, t: Path, p: Path)
    requires [] < t <= p && Exists(n, t)
    ensures !Exists(Unlink(n, t, Done).0, p)
  {
  }

  lemma WithoutFileUndeletable(s: Core, cfg: Config, k: ObjectKey)
    requires k in s.rows && Accepted(cfg, k) && !Exists(s.node, FilePath(cfg, k))
    ensures RemoveObject(s, cfg, k, HEALTHY_DELETE) == (s, Error500)
  {
  }

  // ---------------------------------------------------------------------------------------------
  // Keys outside normal form.
  // ---------------------------------------------------------------------------------------------

  lemma {:induction false} NoSlashes(a: string)
    requires '/' !in a
    ensures Slashes(a) == 0
  {
    if a == "" {
    } else {
      assert a[0] in a;
      NoSlashes(a[1..]);
    }
  }

  lemma OneMoreSlash(p: string, c: string)
    requires '/' !in c
    ensures Slashes(p + "/" + c) == Slashes(p) + 1
  {
    NoSlashes(c);
    SlashesConcat(p, "/");
    SlashesConcat(p + "/", c);
    assert Slashes("/") == 1;
  }

  lemma MoreSlashesNoMatch(p: string, key: string)
    requires Slashes(key) <= Slashes(p)
    ensures !Like(p + "/%", key)
  {
    OneMoreSlash(p, "%");
    assert p + "/" + "%" == p + "/%";
    if Like(p + "/%", key) {
      LikeNeedsSlashes(p + "/%", key);
    }
  }

  lemma ParentOf(p: string, c: string)
    requires '/' !in c && c != "" && c != "."
    requires p != "" && p[|p| - 1] != '/' && !(|p| >= 2 && p[|p| - 1] == '.' && p[|p| - 2] == '/')
    ensures Parent(p + "/" + c) == p
  {
    NameStays(p, c);
    DropNameLast(p + "/", c);
    assert (p + "/")[..|p|] == p;
    assert TrimEnd(p) == p;
  }

  lemma LastOf(n: string)
    requires Plain(n) && '/' !in n
    ensures n[|n| - 1] != '/' && (|n| >= 2 ==> n[|n| - 2] != '/')
  {
    assert n[|n| - 1] in n;
    assert |n| >= 2 ==> n[|n| - 2] in n;
  }

  lemma TwoParts(a: string, b: string)
    requires '/' !in a && '/' !in b
    ensures Parts(a + "/" + b) == [a, b]
  {
    SplitJoin([a, b], '/');
    assert [a, b][1..] == [b] && Unparts([b]) == b;
    assert Unparts([a, b]) == a + ['/'] + b == a + "/" + b;
  }

  lemma TwoNames(a: string, b: string)
    requires Plain(a) && Plain(b) && '/' !in a && '/' !in b
    ensures NormalKey(a + "/" + b) && Resolved(a + "/" + b) == [a, b] && PushAccepted(a + "/" + b)
  {
    TwoParts(a, b);
    NormalKeyResolves(a + "/" + b);
  }

  function DotDot(n: string, a: string): string
  {
    n + "/.." + "/" + a
  }

  lemma DotDotResolves(n: string, a: string)
    requires Plain(n) && Plain(a) && '/' !in n && '/' !in a
    ensures PushAccepted(n + "/..") && Resolved(n + "/..") == []
    ensures PushAccepted(DotDot(n, a)) && Resolved(DotDot(n, a)) == [a]
  {
    TwoParts(n, "..");
    assert n + "/" + ".." == n + "/..";
    SplitAfter(n, "../" + a, '/');
    TwoParts("..", a);
    assert ".." + "/" + a == "../" + a;
    assert DotDot(n, a) == n + ['/'] + ("../" + a);
    assert Parts(n + "/..") == [n, ".."] + [] && Parts(DotDot(n, a)) == [n, ".."] + [a];
    ThereAndBack(n, []);
    ThereAndBack(n, [a]);
    ResolvePlain([a], []);
    StaysInsidePlain([a], 0);
  }

  /** A name followed by `..` leads back to where it started. */
  lemma ThereAndBack(n: string, rest: seq<string>)
    requires Plain(n)
    ensures Resolve([n, ".."] + rest, []) == Resolve(rest, [])
    ensures StaysInside([n, ".."] + rest, 0) <==> StaysInside(rest, 0)
  {
    var cs := [n, ".."] + rest;
    assert cs[1..] == [".."] + rest && cs[1..][1..] == rest;
    assert [n][..0] == [];
    assert [] + [n] == [n];
  }

  lemma DotDotParents(n: string, a: string)
    requires Plain(n) && Plain(a) && '/' !in n && '/' !in a
    ensures Parent(DotDot(n, a)) == n + "/.." && Parent(n + "/..") == n
    ensures n + "/.." in Ancestors(DotDot(n, a))
  {
    LastOf(n);
    ParentOf(n + "/..", a);
    ParentOf(n, "..");
    assert n + "/" + ".." == n + "/..";
  }

  /**
   A trim after `n/../a` sets out to remove the bucket's own directory exactly when something is found
   under the name `n` and nothing under `n/..`.
   */
  lemma DotDotTrimsTheBucketIff(rows: Rows, cfg: Config, bucket: string, n: string, a: string)
    requires PushAccepted(cfg.prefix) && NormalBucket(bucket)
    requires Plain(n) && Plain(a) && '/' !in n && '/' !in a
    ensures TrimTarget(rows, cfg, ObjectKey(bucket, DotDot(n, a))) == Some(BucketPath(cfg, bucket))
            <==> !LooksEmpty(rows, bucket, n) && LooksEmpty(rows, bucket, n + "/..")
  {
    var answer := ShallowestEmpty(rows, bucket, DotDot(n, a));
    DotDotParents(n, a);
    DotDotAncestors(n, a);
    AnswerIff(rows, bucket, DotDot(n, a), n + "/..");
    if answer.Some? {
      AnswerIff(rows, bucket, DotDot(n, a), answer.value);
      DotDotBucket(cfg, bucket, n, a, answer.value);
    }
  }

  /** Of the three ancestors only the middle one resolves to the bucket. */
  lemma DotDotBucket(cfg: Config, bucket: string, n: string, a: string, answer: string)
    requires PushAccepted(cfg.prefix) && NormalBucket(bucket)
    requires Plain(n) && Plain(a) && '/' !in n && '/' !in a && answer in Ancestors(DotDot(n, a))
    ensures NormalizedPath(cfg.prefix, bucket, answer) == Some(BucketPath(cfg, bucket)) <==> answer == n + "/.."
  {
    DotDotResolves(n, a);
    DotDotAncestors(n, a);
    NormalKeyResolves(n);
    NormalBucketPath(cfg, ObjectKey(bucket, answer));
    assert Resolved(answer) == [] <==> answer == n + "/..";
    assert BucketPath(cfg, bucket) + Resolved(answer) == BucketPath(cfg, bucket) <==> Resolved(answer) == [];
  }

  lemma DotDotAncestors(n: string, a: string)
    requires Plain(n) && Plain(a) && '/' !in n && '/' !in a
    ensures Ancestors(DotDot(n, a)) == [DotDot(n, a), n + "/..", n] && Parts(n) == [n] && NormalKey(n)
  {
    DotDotParents(n, a);
    OneName(n);
    AncestorsStep(n);
    AncestorsStep(n + "/..");
    AncestorsStep(DotDot(n, a));
  }

  lemma OneName(n: string)
    requires Plain(n) && '/' !in n
    ensures Parts(n) == [n] && NormalKey(n) && Parent(n) == ""
  {
    SplitOne(n, '/');
    NormalParent([n]);
    assert [n][..0] == [] && Unparts([n]) == n && Unparts([]) == "";
  }

  lemma AncestorsStep(p: string)
    requires p != ""
    ensures Ancestors(p) == [p] + if Parent(p) == "" then [] else Ancestors(Parent(p))
  {
  }

  /**
   From the empty bridge: with `n/y` and `n/../a` stored, deleting the latter makes its trim remove the
   whole bucket directory, and `n/y` is stranded.
   */
  lemma DotDotStrands(cfg: Config, bucket: string, n: string, a: string, y: string, first: Bytes, second: Bytes)
    requires cfg.trimEmptyFolders && PushAccepted(cfg.prefix) && NormalBucket(bucket)
    requires Plain(n) && Plain(a) && Plain(y) && '/' !in n && '/' !in a && '/' !in y && n != a
    ensures var k, f := ObjectKey(bucket, n + "/" + y), ObjectKey(bucket, DotDot(n, a));
            var s := Run(cfg, WithTrim(k, f, first, second, BucketPath(cfg, bucket))).core;
            && k in s.rows
            && (forall p :: BucketPath(cfg, bucket) <= p ==> !Exists(s.node, p))
            && RemoveObject(s, cfg, k, HEALTHY_DELETE) == (s, Error500)
  {
    var k, f := ObjectKey(bucket, n + "/" + y), ObjectKey(bucket, DotDot(n, a));
    DotDotPlaces(cfg, bucket, n, a, y);
    RunUpToDelete(cfg, k, f, first, second);
    var s := Run(cfg, UpToDelete(k, f, first, second)).core;
    DotDotCounts(s.rows, bucket, n, y);
    DotDotTrimsTheBucketIff(s.rows, cfg, bucket, n, a);
    RunWithTrim(cfg, k, f, first, second, BucketPath(cfg, bucket));
    assert BucketPath(cfg, bucket) in Above(FilePath(cfg, k));
    var s' := Run(cfg, WithTrim(k, f, first, second, BucketPath(cfg, bucket))).core;
    forall p | BucketPath(cfg, bucket) <= p ensures !Exists(s'.node, p) {
      UnlinkTakes(s.node, BucketPath(cfg, bucket), p);
    }
    WithoutFileUndeletable(s', cfg, k);
  }

  lemma DotDotPlaces(cfg: Config, bucket: string, n: string, a: string, y: string)
    requires PushAccepted(cfg.prefix) && NormalBucket(bucket)
    requires Plain(n) && Plain(a) && Plain(y) && '/' !in n && '/' !in a && '/' !in y && n != a
    ensures var k, f := ObjectKey(bucket, n + "/" + y), ObjectKey(bucket, DotDot(n, a));
            && Accepted(cfg, k) && Accepted(cfg, f)
            && FilePath(cfg, k) == BucketPath(cfg, bucket) + [n, y] && FilePath(cfg, f) == BucketPath(cfg, bucket) + [a]
            && Apart(FilePath(cfg, k), FilePath(cfg, f))
  {
    TwoNames(n, y);
    DotDotResolves(n, a);
    NormalBucketPath(cfg, ObjectKey(bucket, n + "/" + y));
    NormalBucketPath(cfg, ObjectKey(bucket, DotDot(n, a)));
    BelowBucket(cfg, bucket, [n, y], bucket, [a]);
    BelowBucket(cfg, bucket, [a], bucket, [n, y]);
    assert [n, y][0] != [a][0];
  }

  lemma DotDotCounts(rows: Rows, bucket: string, n: string, y: string)
    requires rows.Keys == {ObjectKey(bucket, n + "/" + y)} && '/' !in n && '/' !in y
    ensures !LooksEmpty(rows, bucket, n) && LooksEmpty(rows, bucket, n + "/..")
  {
    var k := ObjectKey(bucket, n + "/" + y);
    LooksEmptyIff(rows, bucket, n, k);
    LooksEmptyIff(rows, bucket, n + "/..", k);
    BelowMatches(n, k.key);
    OneMoreSlash(n, y);
    OneMoreSlash(n, "..");
    assert n + "/" + ".." == n + "/..";
    MoreSlashesNoMatch(n + "/..", k.key);
  }

  /**
   From the empty bridge: the deleted key is normal and literal, the live one only has a dot in front.
   Deleting `a/b` makes its trim remove the directory that `./a/x` resolves into.
   */
  lemma LeadingDotStrands(cfg: Config, bucket: string, a: string, b: string, x: string, first: Bytes, second: Bytes)
    requires cfg.trimEmptyFolders && PushAccepted(cfg.prefix) && NormalBucket(bucket)
    requires Plain(a) && Plain(b) && Plain(x) && '/' !in a && '/' !in b && '/' !in x && b != x
    requires a[0] != '.' && !Wild(a[0])
    ensures var k, f := ObjectKey(bucket, "." + "/" + (a + "/" + x)), ObjectKey(bucket, a + "/" + b);
            var s := Run(cfg, WithTrim(k, f, first, second, BucketPath(cfg, bucket) + [a])).core;
            && k in s.rows && FilePath(cfg, k) !in s.node.files
            && RemoveObject(s, cfg, k, HEALTHY_DELETE) == (s, Error500)
  {
    var k, f := ObjectKey(bucket, "." + "/" + (a + "/" + x)), ObjectKey(bucket, a + "/" + b);
    LeadingDotPlaces(cfg, bucket, a, b, x);
    RunUpToDelete(cfg, k, f, first, second);
    var s := Run(cfg, UpToDelete(k, f, first, second)).core;
    TwoParts(a, b);
    assert Upper(f.key, 1) == a by {
      assert [a, b][..1] == [a];
    }
    var j := AnswerPath(s.rows, cfg, f);
    LooksEmptyIff(s.rows, bucket, a, k);
    assert (a + "/%")[0] == a[0] && k.key[0] == '.';
    assert j == 1 && DirOf(cfg, f, 1) == BucketPath(cfg, bucket) + [a];
    StrandedIff(cfg, k, f, first, second, BucketPath(cfg, bucket) + [a]);
    OverreachesIff(s.rows, cfg, f, k);
  }

  lemma LeadingDotPlaces(cfg: Config, bucket: string, a: string, b: string, x: string)
    requires PushAccepted(cfg.prefix) && NormalBucket(bucket)
    requires Plain(a) && Plain(b) && Plain(x) && '/' !in a && '/' !in b && '/' !in x && b != x
    ensures var k, f := ObjectKey(bucket, "." + "/" + (a + "/" + x)), ObjectKey(bucket, a + "/" + b);
            && Accepted(cfg, k) && Accepted(cfg, f) && Normal(f)
            && FilePath(cfg, k) == BucketPath(cfg, bucket) + [a, x] && FilePath(cfg, f) == BucketPath(cfg, bucket) + [a, b]
            && Apart(FilePath(cfg, k), FilePath(cfg, f))
  {
    var k, f := ObjectKey(bucket, "." + "/" + (a + "/" + x)), ObjectKey(bucket, a + "/" + b);
    TwoNames(a, b);
    LeadingDotResolves(a, x);
    NormalBucketPath(cfg, k);
    NormalBucketPath(cfg, f);
    BelowBucket(cfg, bucket, [a, x], bucket, [a, b]);
    BelowBucket(cfg, bucket, [a, b], bucket, [a, x]);
    assert [a, x][1] != [a, b][1];
  }

  lemma LeadingDotResolves(a: string, x: string)
    requires Plain(a) && Plain(x) && '/' !in a && '/' !in x
    ensures var key := "." + "/" + (a + "/" + x);
            Resolved(key) == [a, x] && PushAccepted(key)
  {
    var key := "." + "/" + (a + "/" + x);
    TwoParts(a, x);
    SplitAfter(".", a + "/" + x, '/');
    assert key == "." + ['/'] + (a + "/" + x);
    assert Parts(key) == [".", a, x];
    assert Parts(key)[1..] == [a, x];
    ResolvePlain([a, x], []);
    StaysInsidePlain([a, x], 0);
  }

  // ---------------------------------------------------------------------------------------------
  // Trims that stop short.
  // ---------------------------------------------------------------------------------------------

  /**
   The history leaves an empty directory on the way to the deleted key exactly when that directory's
   pattern takes in the live key although the live key is not below it.
   */
  lemma EmptyDirectoryStaysIff(cfg: Config, k: ObjectKey, f: ObjectKey, first: Bytes, second: Bytes, t: Path, i: nat)
    requires cfg.trimEmptyFolders && PushAccepted(cfg.prefix) && Normal(k) && Normal(f)
    requires Apart(FilePath(cfg, k), FilePath(cfg, f)) && 0 < i < |Parts(f.key)|
    requires Accepted(cfg, k) && Accepted(cfg, f)
    requires var target := TrimTarget(Run(cfg, UpToDelete(k, f, first, second)).core.rows, cfg, f);
             t == if target.Some? then target.value else []
    ensures var s := Run(cfg, WithTrim(k, f, first, second, t)).core;
            && s.trims == multiset{}
            && (DirOf(cfg, f, i) in s.node.dirs && !HoldsLive(s.rows, cfg, DirOf(cfg, f, i))
                <==> Counts(f.bucket, Upper(f.key, i), k)
                     && !(k.bucket == f.bucket && Parts(f.key)[..i] < Parts(k.key)))
  {
    var s := Run(cfg, UpToDelete(k, f, first, second)).core;
    var d := DirOf(cfg, f, i);
    RunUpToDelete(cfg, k, f, first, second);
    RunWithTrim(cfg, k, f, first, second, t);
    NormalPath(cfg, k);
    NormalPath(cfg, f);
    BelowBucket(cfg, f.bucket, Parts(f.key)[..i], k.bucket, Parts(k.key));
    assert FilePath(cfg, f)[..|d|] == d;
    assert d in Above(FilePath(cfg, f));
    ClearsIff(s.rows, cfg, f, i);
    TargetIsDeep(s.rows, cfg, f);
    assert HoldsLive(s.rows, cfg, d) <==> d < FilePath(cfg, k);
    TargetGoneIff(s.node, cfg, f, t, d);
  }

  /** Unlinking a target on the way to the key takes a directory on the way exactly if it is below the target. */
  lemma TargetGoneIff(n: Node, cfg: Config, f: ObjectKey, t: Path, d: Path)
    requires d in n.dirs && d < FilePath(cfg, f) && Above(FilePath(cfg, f)) <= n.dirs
    ensures d in Unlink(n, t, Done).0.dirs <==> !([] < t <= d)
  {
    if [] < t <= d {
      assert t in Above(FilePath(cfg, f));
    }
  }

  /** A name that, read as a pattern, matches another name is enough. */
  lemma WildcardKeepsDirectory(cfg: Config, bucket: string, w: string, x: string, a: string, y: string,
      first: Bytes, second: Bytes)
    requires cfg.trimEmptyFolders && PushAccepted(cfg.prefix) && NormalBucket(bucket)
    requires Plain(w) && Plain(x) && Plain(a) && Plain(y)
    requires '/' !in w && '/' !in x && '/' !in a && '/' !in y
    requires Like(w, a) && w != a
    ensures var k, f := ObjectKey(bucket, a + "/" + y), ObjectKey(bucket, w + "/" + x);
            exists t :: var s := Run(cfg, WithTrim(k, f, first, second, t)).core;
              && s.trims == multiset{}
              && BucketPath(cfg, bucket) + [w] in s.node.dirs
              && !HoldsLive(s.rows, cfg, BucketPath(cfg, bucket) + [w])
  {
    var k, f := ObjectKey(bucket, a + "/" + y), ObjectKey(bucket, w + "/" + x);
    TwoParts(a, y);
    TwoParts(w, x);
    NormalPath(cfg, k);
    NormalPath(cfg, f);
    BelowBucket(cfg, bucket, [w, x], bucket, [a, y]);
    BelowBucket(cfg, bucket, [a, y], bucket, [w, x]);
    var target := TrimTarget(Run(cfg, UpToDelete(k, f, first, second)).core.rows, cfg, f);
    var t := if target.Some? then target.value else [];
    EmptyDirectoryStaysIff(cfg, k, f, first, second, t, 1);
    assert [w, x][..1] == [w] && Unparts([w]) == w;
    WildcardCounts(w, a, y);
  }

  lemma WildcardCounts(w: string, a: string, y: string)
    requires Like(w, a)
    ensures Like(w + "/%", a + "/" + y)
  {
    PercentMatchesAll(y);
    LikeItself("/");
    LikeAppend(w, a, "/", "/");
    LikeAppend(w + "/", a + "/", "%", y);
    assert w + "/" + "%" == w + "/%";
  }
}
