/**
 What a client sees.  `LastPut` reads the history of requests and answers backwards: the bodies of the
 puts that succeeded, and the deletes that succeeded or failed in their orphan check only.  GET on the
 bridge, by row, identifier and block, agrees with it after every history.
 */
module S3Refinement {
  import opened Options
  import opened IpfsNode
  import opened Database
  import opened Slots
  import opened Bridge
  import opened Pins

  /** What the client sent: the bytes, and the content type if it gave one. */
  datatype Stored = Stored(body: Bytes, header: Option<string>)

  /** The delete that the client sent would have succeeded had only the orphan check been healthy. */
  predicate DeleteReachesRow(s: Core, cfg: Config, k: ObjectKey, f: DeleteFaults)
  {
    Success(RemoveObject(s, cfg, k, f.(orphan := HEALTHY_ORPHAN)).1)
  }

  /** What one more event makes of the object a client expects under `k`. */
  function Expected(s: State, cfg: Config, e: Event, k: ObjectKey, before: Option<Stored>): Option<Stored>
  {
    match e
    case Put(req, _) =>
      if req.key == k && PartParams(req.partNumber, req.uploadId).None? && Success(Step(s, cfg, e).1)
      then Some(Stored(req.body, req.header))
      else before
    case Complete(key, id, _) =>
      if key == k && id in s.uploads && Success(Step(s, cfg, e).1)
      then Some(Stored(AssembledBody(s.uploads[id]), None))
      else before
    case Delete(key, id, f) =>
      if key == k && id.None? && DeleteReachesRow(s.core, cfg, key, f) then None else before
    case _ => before
  }

  /** The object a client expects under `k`: that of the last successful put, unless deleted since. */
  function LastPut(cfg: Config, es: seq<Event>, k: ObjectKey): Option<Stored>
  {
    if es == [] then None
    else
      var earlier := es[..|es| - 1];
      Expected(Run(cfg, earlier), cfg, es[|es| - 1], k, LastPut(cfg, earlier, k))
  }

  /** A put changes the table if and only if it succeeds. */
  lemma StoreEffect(s: Core, cfg: Config, k: ObjectKey, header: Option<string>, body: Bytes, f: PutFaults)
    ensures var (s', st) := StoreObject(s, cfg, k, header, body, f);
            s'.rows == if Success(st) then s.rows[k := Row(CidOf(body), |body|, ContentTypeOf(cfg, k.key, header))]
                       else s.rows
  {
  }

  /** Every step up to and including the removal of the row goes well. */
  predicate RowGoes(s: Core, cfg: Config, k: ObjectKey, f: DeleteFaults)
  {
    && f.select && k in s.rows && PathOf(cfg, k).Some?
    && Unlink(s.node, PathOf(cfg, k).value, f.unlink).1 && f.remove
  }

  lemma RemoveRows(s: Core, cfg: Config, k: ObjectKey, f: DeleteFaults)
    ensures var (s', st) := RemoveObject(s, cfg, k, f);
            && s'.rows == (if RowGoes(s, cfg, k, f) then s.rows - {k} else s.rows)
            && (Success(st) ==> RowGoes(s, cfg, k, f))
  {
  }

  lemma HealthyOrphanEndsWell(s: Core, cfg: Config, k: ObjectKey, f: DeleteFaults)
    requires PinSafe(s) && f.orphan == HEALTHY_ORPHAN
    ensures Success(RemoveObject(s, cfg, k, f).1) <==> RowGoes(s, cfg, k, f)
  {
    if RowGoes(s, cfg, k, f) {
      var node := Unlink(s.node, PathOf(cfg, k).value, f.unlink).0;
      HealthyOrphanSucceeds(s.(rows := s.rows - {k}, node := node), s.rows[k].cid);
    }
  }

  /**
   A delete removes the row if it succeeds.  If it reports an error the row stays, with one
   exception: every step up to the removal of the row went well and the orphan check failed.
   */
  lemma RemoveEffect(s: Core, cfg: Config, k: ObjectKey, f: DeleteFaults)
    requires PinSafe(s)
    ensures var (s', st) := RemoveObject(s, cfg, k, f);
            && s'.rows == (if DeleteReachesRow(s, cfg, k, f) then s.rows - {k} else s.rows)
            && (Success(st) ==> DeleteReachesRow(s, cfg, k, f))
            && (!Success(st) && DeleteReachesRow(s, cfg, k, f) ==> f.orphan != HEALTHY_ORPHAN)
  {
    RemoveRows(s, cfg, k, f);
    HealthyOrphanEndsWell(s, cfg, k, f.(orphan := HEALTHY_ORPHAN));
  }

  ghost predicate RowShows(cfg: Config, rows: Rows, k: ObjectKey, o: Option<Stored>)
  {
    match o
    case None => k !in rows
    case Some(x) => k in rows && rows[k] == Row(CidOf(x.body), |x.body|, ContentTypeOf(cfg, k.key, x.header))
  }

  lemma PutShows(s: State, cfg: Config, e: Event, k: ObjectKey, before: Option<Stored>)
    requires e.Put? && RowShows(cfg, s.core.rows, k, before)
    ensures RowShows(cfg, Step(s, cfg, e).0.core.rows, k, Expected(s, cfg, e, k, before))
  {
    StoreEffect(s.core, cfg, e.req.key, e.req.header, e.req.body, e.pf);
  }

  lemma CompleteShows(s: State, cfg: Config, e: Event, k: ObjectKey, before: Option<Stored>)
    requires e.Complete? && RowShows(cfg, s.core.rows, k, before)
    ensures RowShows(cfg, Step(s, cfg, e).0.core.rows, k, Expected(s, cfg, e, k, before))
  {
    if e.id in s.uploads {
      StoreEffect(s.core, cfg, e.ckey, None, AssembledBody(s.uploads[e.id]), e.pf);
    }
  }

  lemma DeleteShows(s: State, cfg: Config, e: Event, k: ObjectKey, before: Option<Stored>)
    requires e.Delete? && PinSafe(s.core) && RowShows(cfg, s.core.rows, k, before)
    ensures RowShows(cfg, Step(s, cfg, e).0.core.rows, k, Expected(s, cfg, e, k, before))
  {
    RemoveEffect(s.core, cfg, e.key, e.df);
  }

  lemma StepShows(s: State, cfg: Config, e: Event, k: ObjectKey, before: Option<Stored>)
    requires PinSafe(s.core) && RowShows(cfg, s.core.rows, k, before)
    ensures RowShows(cfg, Step(s, cfg, e).0.core.rows, k, Expected(s, cfg, e, k, before))
  {
    match e {
      case Put(_, _) => PutShows(s, cfg, e, k, before);
      case Delete(_, _, _) => DeleteShows(s, cfg, e, k, before);
      case Create(_) =>
      case Complete(_, _, _) => CompleteShows(s, cfg, e, k, before);
      case TaskUnpin(_, _) =>
      case TaskTrim(job, f) => TrimKeepsContent(s.core, cfg, job, f);
      case Gc(_) =>
    }
  }

  lemma {:induction false} RowsShowLastPut(cfg: Config, es: seq<Event>, k: ObjectKey)
    ensures RowShows(cfg, Run(cfg, es).core.rows, k, LastPut(cfg, es, k))
  {
    if es == [] {
    } else {
      var earlier := es[..|es| - 1];
      RowsShowLastPut(cfg, earlier, k);
      RunIsPinSafe(cfg, earlier);
      StepShows(Run(cfg, earlier), cfg, es[|es| - 1], k, LastPut(cfg, earlier, k));
    }
  }

  /** GET yields the bytes, the size and the type of the last put, in every run and for every key. */
  lemma {:induction false} GetIsLastPut(cfg: Config, es: seq<Event>, k: ObjectKey)
    ensures GetObject(Run(cfg, es).core, k) ==
            match LastPut(cfg, es, k)
            case None => NotFound
            case Some(x) =>
              Found(x.body, |x.body|,
                    if x.header.Some? then x.header.value
                    else if cfg.autoMime then cfg.mime(k.key)
                    else "application/octet-stream")
  {
    RowsShowLastPut(cfg, es, k);
    RunIsPinSafe(cfg, es);
    ShownIsFound(cfg, Run(cfg, es).core, k, LastPut(cfg, es, k));
  }

  lemma ShownIsFound(cfg: Config, s: Core, k: ObjectKey, o: Option<Stored>)
    requires PinSafe(s) && RowShows(cfg, s.rows, k, o)
    ensures o.None? ==> GetObject(s, k) == NotFound
    ensures o.Some? ==> GetObject(s, k) == Found(o.value.body, |o.value.body|, ContentTypeOf(cfg, k.key, o.value.header))
  {
  }

  // ---------------------------------------------------------------------------------------------
  // The answers.
  // ---------------------------------------------------------------------------------------------

  /** How a put is answered, under any faults: 400 for a refused key comes before anything is changed. */
  lemma PutAnswers(s: Core, cfg: Config, k: ObjectKey, header: Option<string>, body: Bytes, f: PutFaults)
    ensures var (s', st) := StoreObject(s, cfg, k, header, body, f);
            var stored := f.add.Done? && f.link.Done? && PathOf(cfg, k).Some? && CanLink(s.node, PathOf(cfg, k).value) && f.upsert;
            && (st.Ok200? <==> f.select && stored)
            && (st.BadRequest400? <==> f.select && PathOf(cfg, k).None?)
            && (st.Ok200? || st.BadRequest400? || st.Error500?)
            && (st.BadRequest400? || !f.select ==> s' == s)
  {
  }

  /** How a delete is answered, under any faults: 404 exactly for a key that is not live. */
  lemma DeleteAnswers(s: Core, cfg: Config, k: ObjectKey, f: DeleteFaults)
    ensures var (s', st) := RemoveObject(s, cfg, k, f);
            var reaches := f.select && k in s.rows && PathOf(cfg, k).Some? && f.unlink.Done?
                           && PathOf(cfg, k).value != [] && Exists(s.node, PathOf(cfg, k).value) && f.remove;
            && (st.NotFound404? <==> f.select && k !in s.rows)
            && (st.NoContent204? <==>
                  reaches && f.orphan.count
                  && ((f.orphan.unpin.Done? && s.rows[k].cid in s.node.pinned) || exists other :: other in s.rows && other != k && s.rows[other].cid == s.rows[k].cid))
            && (st.NotFound404? || st.NoContent204? || st.Error500?)
            && (st.NotFound404? ==> s' == s)
  {
    if RowGoes(s, cfg, k, f) {
      var rest := s.rows - {k};
      if other :| other in s.rows && other != k && s.rows[other].cid == s.rows[k].cid {
        assert other in rest && rest[other].cid in CidsOf(rest);
      }
      if s.rows[k].cid in CidsOf(rest) {
        var other :| other in rest && rest[other].cid == s.rows[k].cid;
        assert other in s.rows && other != k;
      }
    }
  }
}
