/** The metadata table and its queries. */
module Database {
  import opened Options
  import opened IpfsNode
  import opened Paths
  import opened SqlLike

  /** The primary key of the table. */
  datatype ObjectKey = ObjectKey(bucket: string, key: string)

  datatype Row = Row(cid: Cid, size: int, contentType: string)

  type Rows = map<ObjectKey, Row>

  function CidsOf(rows: Rows): set<Cid>
  {
    set k | k in rows :: rows[k].cid
  }

  function KeysNaming(rows: Rows, cid: Cid): set<ObjectKey>
  {
    set k | k in rows && rows[k].cid == cid
  }

  /** The rows of a bucket whose key matches the pattern `ancestor/%`. */
  function KeysLike(rows: Rows, bucket: string, ancestor: string): set<ObjectKey>
  {
    set k | k in rows && k.bucket == bucket && Matches(ancestor + "/%", k.key)
  }

  /** The count query for one ancestor found nothing. */
  predicate LooksEmpty(rows: Rows, bucket: string, ancestor: string)
  {
    |KeysLike(rows, bucket, ancestor)| == 0
  }

  /**
   What the trim query is for: test every ancestor of the path and answer the shallowest one under
   which nothing is found.
   */
  function ShallowestEmpty(rows: Rows, bucket: string, path: string): Option<string>
    decreases |path|
  {
    if path == "" then None
    else
      var above := ShallowestEmpty(rows, bucket, Parent(path));
      if above.Some? then above
      else if LooksEmpty(rows, bucket, path) then Some(path)
      else None
  }

  /**
   The walk the code takes: from the path upwards, stopping at the first ancestor under which
   something is found.  `failAt` is the query, counted from here, that the database fails to answer.
   */
  function Walk(rows: Rows, bucket: string, path: string, failAt: Option<nat>, shallow: Option<string>):
    Result<Option<string>>
    decreases |path|
  {
    if path == "" then Ok(shallow)
    else if failAt == Some(0) then Err
    else if !LooksEmpty(rows, bucket, path) then Ok(shallow)
    else Walk(rows, bucket, Parent(path), Before(failAt), Some(path))
  }

  function Before(failAt: Option<nat>): Option<nat>
  {
    if failAt.Some? && failAt.value > 0 then Some(failAt.value - 1) else None
  }

  lemma {:induction false} LooksEmptyMeans(rows: Rows, bucket: string, ancestor: string)
    ensures LooksEmpty(rows, bucket, ancestor) <==>
            forall k :: k in rows && k.bucket == bucket ==> !Like(ancestor + "/%", k.key)
  {
    forall k | k in rows ensures Matches(ancestor + "/%", k.key) <==> Like(ancestor + "/%", k.key) {
      CompareDecidesLike(ancestor + "/%", k.key);
    }
    var found := KeysLike(rows, bucket, ancestor);
    if k :| k in rows && k.bucket == bucket && Like(ancestor + "/%", k.key) {
      assert k in found;
    }
    if k :| k in found {
      assert |found| > 0;
    }
  }

  /** A name without wildcards looks empty exactly if nothing lives below it under any ASCII casing. */
  lemma PlainLooksEmptyIff(rows: Rows, bucket: string, a: string)
    requires WildcardFree(a)
    ensures LooksEmpty(rows, bucket, a) <==>
            forall k :: k in rows && k.bucket == bucket && |k.key| > |a| && k.key[|a|] == '/' ==> !Casing(a, k.key[..|a|])
  {
    LooksEmptyMeans(rows, bucket, a);
    forall k | k in rows ensures Like(a + "/%", k.key) <==>
                                 |k.key| > |a| && Casing(a, k.key[..|a|]) && k.key[|a|] == '/' {
      PlainMatchesBelow(a, k.key);
    }
  }

  /** Once something is found under an ancestor, something is found under every shallower one. */
  lemma {:induction false} EmptyUpwards(rows: Rows, bucket: string, path: string)
    requires path != "" && Parent(path) != ""
    ensures LooksEmpty(rows, bucket, Parent(path)) ==> LooksEmpty(rows, bucket, path)
  {
    LooksEmptyMeans(rows, bucket, path);
    LooksEmptyMeans(rows, bucket, Parent(path));
    var up := Parent(path);
    var r := path[|up| + 1..] + "/%";
    assert path == up + "/" + path[|up| + 1..];
    forall k | k in rows && k.bucket == bucket && Like(path + "/%", k.key)
      ensures Like(up + "/%", k.key)
    {
      assert path + "/%" == up + "/" + r;
      DeeperMatchesShallower(up, r, k.key);
    }
  }

  lemma {:induction false} NothingEmptyAbove(rows: Rows, bucket: string, path: string)
    requires path != "" && !LooksEmpty(rows, bucket, path)
    ensures ShallowestEmpty(rows, bucket, path) == None
    decreases |path|
  {
    if Parent(path) == "" {
    } else {
      EmptyUpwards(rows, bucket, path);
      NothingEmptyAbove(rows, bucket, Parent(path));
    }
  }

  /**
   Which directory is answered, said of the table alone: the ancestor under which nothing is found
   while something is found one level up, or there is no level up.
   */
  lemma {:induction false} AnswerIff(rows: Rows, bucket: string, path: string, a: string)
    ensures ShallowestEmpty(rows, bucket, path) == Some(a) <==>
            a in Ancestors(path) && LooksEmpty(rows, bucket, a)
            && (Parent(a) == "" || !LooksEmpty(rows, bucket, Parent(a)))
    decreases |path|
  {
    if path == "" {
    } else {
      AnswerIff(rows, bucket, Parent(path), a);
      if a == path && Parent(path) != "" && !LooksEmpty(rows, bucket, Parent(path)) {
        NothingEmptyAbove(rows, bucket, Parent(path));
      }
    }
  }

  /** An ancestor looks empty exactly when it or something above it is answered. */
  lemma {:induction false} AnswerAboveIff(rows: Rows, bucket: string, path: string, a: string)
    requires a in Ancestors(path)
    ensures LooksEmpty(rows, bucket, a) <==>
            var answer := ShallowestEmpty(rows, bucket, path);
            answer.Some? && answer.value in Ancestors(a)
    decreases |path|
  {
    if a == path {
      if LooksEmpty(rows, bucket, path) {
        AnswerIff(rows, bucket, path, ShallowestEmpty(rows, bucket, path).value);
      } else {
        NothingEmptyAbove(rows, bucket, path);
      }
    } else {
      AnswerAboveIff(rows, bucket, Parent(path), a);
      NotAboveItsAncestor(path, a);
    }
  }

  lemma NotAboveItsAncestor(path: string, a: string)
    requires path != "" && a in Ancestors(Parent(path))
    ensures path !in Ancestors(a)
  {
    AncestorsAreShorter(Parent(path), a);
    if path in Ancestors(a) {
      AncestorsAreShorter(a, path);
    }
  }

  lemma {:induction false} AncestorsAreShorter(path: string, a: string)
    requires a in Ancestors(path)
    ensures |a| <= |path|
    decreases |path|
  {
    if a == path {
    } else {
      AncestorsAreShorter(Parent(path), a);
    }
  }

  /** Leaving the walk at the first hit gives the answer of testing every ancestor. */
  lemma {:induction false} EarlyExitIsExact(rows: Rows, bucket: string, path: string, shallow: Option<string>)
    ensures var all := ShallowestEmpty(rows, bucket, path);
            Walk(rows, bucket, path, None, shallow) == Ok(if all.Some? then all else shallow)
    decreases |path|
  {
    if path == "" {
    } else {
      if LooksEmpty(rows, bucket, path) {
        EarlyExitIsExact(rows, bucket, Parent(path), Some(path));
      } else {
        NothingEmptyAbove(rows, bucket, path);
      }
    }
  }

  /** How many queries the walk makes: one for every ancestor up to the first that is not empty. */
  function Queries(rows: Rows, bucket: string, ancestors: seq<string>): nat
  {
    if ancestors == [] then 0
    else if LooksEmpty(rows, bucket, ancestors[0]) then 1 + Queries(rows, bucket, ancestors[1..])
    else 1
  }

  /** A walk gives no answer exactly if the query that fails is one that it makes. */
  lemma {:induction false} WalkFailsIff(rows: Rows, bucket: string, path: string, n: nat, shallow: Option<string>)
    ensures Walk(rows, bucket, path, Some(n), shallow).Err? <==> n < Queries(rows, bucket, Ancestors(path))
    decreases |path|
  {
    if path == "" {
    } else if LooksEmpty(rows, bucket, path) {
      QueriesGoUp(rows, bucket, path);
      if n > 0 {
        WalkGoesUp(rows, bucket, path, n, shallow);
        WalkFailsIff(rows, bucket, Parent(path), n - 1, Some(path));
      }
    } else {
      OneQuery(rows, bucket, path, n, shallow);
    }
  }

  lemma OneQuery(rows: Rows, bucket: string, path: string, n: nat, shallow: Option<string>)
    requires path != "" && !LooksEmpty(rows, bucket, path)
    ensures Queries(rows, bucket, Ancestors(path)) == 1
    ensures Walk(rows, bucket, path, Some(n), shallow).Err? <==> n == 0
  {
    assert Ancestors(path)[0] == path;
  }

  lemma QueriesGoUp(rows: Rows, bucket: string, path: string)
    requires path != "" && LooksEmpty(rows, bucket, path)
    ensures Queries(rows, bucket, Ancestors(path)) == 1 + Queries(rows, bucket, Ancestors(Parent(path)))
  {
    assert Ancestors(path)[1..] == Ancestors(Parent(path));
  }

  lemma WalkGoesUp(rows: Rows, bucket: string, path: string, n: nat, shallow: Option<string>)
    requires path != "" && n > 0 && LooksEmpty(rows, bucket, path)
    ensures Walk(rows, bucket, path, Some(n), shallow) == Walk(rows, bucket, Parent(path), Some(n - 1), Some(path))
  {
  }

  /** A walk that meets a database failure gives no answer; otherwise the failure plays no part. */
  lemma {:induction false} FailingWalk(rows: Rows, bucket: string, path: string, failAt: Option<nat>,
      shallow: Option<string>)
    ensures var r := Walk(rows, bucket, path, failAt, shallow);
            r.Err? || r == Walk(rows, bucket, path, None, shallow)
    decreases |path|
  {
    if path == "" || failAt == Some(0) || !LooksEmpty(rows, bucket, path) {
    } else {
      FailingWalk(rows, bucket, Parent(path), Before(failAt), Some(path));
    }
  }

  /** The table object.  A query answers, or fails without effect when `up` is false. */
  class MetadataDb {
    var rows: Rows

    constructor ()
      ensures rows == map[]
    {
      rows := map[];
    }

    method StoreObjectMetadata(k: ObjectKey, cid: Cid, size: int, contentType: string, up: bool)
      returns (ok: bool)
      modifies this
      ensures ok == up
      ensures rows == if up then old(rows)[k := Row(cid, size, contentType)] else old(rows)
    {
      if up {
        rows := rows[k := Row(cid, size, contentType)];
      }
      return up;
    }

    method GetObjectMetadata(k: ObjectKey, up: bool) returns (r: Result<Option<Row>>)
      ensures r == if !up then Err else if k in rows then Ok(Some(rows[k])) else Ok(None)
    {
      if !up {
        return Err;
      }
      return Ok(if k in rows then Some(rows[k]) else None);
    }

    method DeleteObjectMetadata(k: ObjectKey, up: bool) returns (ok: bool)
      modifies this
      ensures ok == up
      ensures rows == if up then old(rows) - {k} else old(rows)
    {
      if up {
        rows := rows - {k};
      }
      return up;
    }

    method CidCount(cid: Cid, up: bool) returns (r: Result<nat>)
      ensures r == if up then Ok(|KeysNaming(rows, cid)|) else Err
      ensures r.Ok? ==> (r.value == 0 <==> cid !in CidsOf(rows))
    {
      if !up {
        return Err;
      }
      var naming := set k | k in rows && rows[k].cid == cid;
      if naming == {} {
        assert forall k :: k in rows ==> k !in naming;
      } else {
        var k :| k in naming;
      }
      return Ok(|naming|);
    }

    /** The ancestor loop of the trim query, which leaves at the first ancestor that is not empty. */
    method FindShallowestRemovableDirectory(bucket: string, path: string, failAt: Option<nat>)
      returns (r: Result<Option<string>>)
      ensures r == Walk(rows, bucket, path, failAt, None)
      ensures r.Ok? ==> r.value == ShallowestEmpty(rows, bucket, path)
      ensures failAt.None? ==> r.Ok?
    {
      EarlyExitIsExact(rows, bucket, path, None);
      FailingWalk(rows, bucket, path, failAt, None);
      var shallow: Option<string> := None;
      var ancestor := path;
      var left := failAt;
      while ancestor != ""
        invariant Walk(rows, bucket, path, failAt, None) == Walk(rows, bucket, ancestor, left, shallow)
        decreases |ancestor|
      {
        if left == Some(0) {
          return Err;
        }
        var found := KeysLike(rows, bucket, ancestor);
        if |found| != 0 {
          break;
        }
        shallow := Some(ancestor);
        ancestor := Parent(ancestor);
        left := Before(left);
      }
      return Ok(shallow);
    }
  }
}
