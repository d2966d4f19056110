/**
 Multipart uploads over whole histories: how many sessions there can be, what a finished session
 stores, and how often a session can be finished.
 */
module Multipart {
  import opened Options
  import opened IpfsNode
  import opened Database
  import opened Slots
  import opened Bridge

  predicate IsPart(e: Event, id: string)
  {
    e.Put? && PartParams(e.req.partNumber, e.req.uploadId).Some? && PartParams(e.req.partNumber, e.req.uploadId).value.1 == id
  }

  /** The event ends the session if it is open: an abort or a completion. */
  predicate Ends(e: Event, id: string)
  {
    (e.Delete? && e.uploadId == Some(id)) || (e.Complete? && e.id == id)
  }

  /** What one event does to the sessions. */
  lemma StepUploads(s: State, cfg: Config, e: Event)
    ensures var (s', st) := Step(s, cfg, e);
            s'.uploads ==
            match e
            case Put(req, _) =>
              (match PartParams(req.partNumber, req.uploadId)
               case Some((n, id)) => if st.Ok200? then s.uploads[id := s.uploads[id][n := req.body]] else s.uploads
               case None => s.uploads)
            case Delete(_, Some(id), _) => s.uploads - {id}
            case Create(id) => if st.Ok200? then s.uploads[id := map[]] else s.uploads
            case Complete(_, id, _) => s.uploads - {id}
            case _ => s.uploads
  {
    if e.Complete? && e.id !in s.uploads {
      assert s.uploads - {e.id} == s.uploads;
    }
  }

  // ---------------------------------------------------------------------------------------------
  // The bound.
  // ---------------------------------------------------------------------------------------------

  lemma StepWithinCapacity(s: State, cfg: Config, e: Event)
    requires |s.uploads| <= cfg.uploadCapacity
    ensures |Step(s, cfg, e).0.uploads| <= cfg.uploadCapacity
  {
    StepUploads(s, cfg, e);
    match e {
      case Put(req, _) =>
        if PartParams(req.partNumber, req.uploadId).Some? {
          var (n, id) := PartParams(req.partNumber, req.uploadId).value;
          if id in s.uploads {
            InsertedSize(s.uploads, id, s.uploads[id][n := req.body]);
          }
        }
      case Delete(_, uploadId, _) =>
        if uploadId.Some? {
          RemovedSize(s.uploads, uploadId.value);
        }
      case Create(id) => InsertedSize(s.uploads, id, map[]);
      case Complete(_, id, _) => RemovedSize(s.uploads, id);
      case _ =>
    }
  }

  /** In every run the sessions fit the capacity. */
  lemma {:induction false} SessionsAreBounded(cfg: Config, es: seq<Event>)
    ensures |Run(cfg, es).uploads| <= cfg.uploadCapacity
  {
    if es == [] {
    } else {
      SessionsAreBounded(cfg, es[..|es| - 1]);
      StepWithinCapacity(Run(cfg, es[..|es| - 1]), cfg, es[|es| - 1]);
    }
  }

  /** A create is refused exactly when every slot is taken. */
  lemma CreateRefusedIffFull(cfg: Config, es: seq<Event>, id: string)
    ensures Step(Run(cfg, es), cfg, Create(id)).1.Unavailable503? <==> |Run(cfg, es).uploads| == cfg.uploadCapacity
  {
    SessionsAreBounded(cfg, es);
  }

  /** Ending an open session makes room: the next create succeeds, whatever became of the stored body. */
  lemma EndingMakesRoom(cfg: Config, es: seq<Event>, e: Event, id: string, next: string)
    requires id in Run(cfg, es).uploads && Ends(e, id)
    ensures var s := Step(Run(cfg, es), cfg, e).0;
            id !in s.uploads && Step(s, cfg, Create(next)).1.Ok200?
  {
    SessionsAreBounded(cfg, es);
    StepUploads(Run(cfg, es), cfg, e);
    RemovedSize(Run(cfg, es).uploads, id);
  }

  // ---------------------------------------------------------------------------------------------
  // What a session holds.
  // ---------------------------------------------------------------------------------------------

  /** The body last accepted for part `n` since the session was created, read off the history. */
  function LastPart(cfg: Config, es: seq<Event>, id: string, n: i8): Option<Bytes>
  {
    if es == [] then None
    else
      var e, earlier := es[|es| - 1], es[..|es| - 1];
      var ok := LastStatus(cfg, es).Ok200?;
      if e == Create(id) && ok then None
      else if IsPart(e, id) && PartParams(e.req.partNumber, e.req.uploadId).value.0 == n && ok then Some(e.req.body)
      else LastPart(cfg, earlier, id, n)
  }

  lemma {:induction false} SessionHoldsLastParts(cfg: Config, es: seq<Event>, id: string, n: i8)
    requires id in Run(cfg, es).uploads
    ensures var parts := Run(cfg, es).uploads[id];
            LastPart(cfg, es, id, n) == if n in parts then Some(parts[n]) else None
  {
    var e, earlier := es[|es| - 1], es[..|es| - 1];
    StepUploads(Run(cfg, earlier), cfg, e);
    if id in Run(cfg, earlier).uploads {
      SessionHoldsLastParts(cfg, earlier, id, n);
    } else {
      assert e == Create(id);
    }
  }

  /** The bodies last accepted for the parts numbered `from` and above, in ascending order. */
  function BodyFrom(cfg: Config, es: seq<Event>, id: string, from: int): Bytes
    requires -128 <= from <= 128
    decreases |es|, 128 - from
  {
    if from == 128 then []
    else
      var part := LastPart(cfg, es, id, from as i8);
      (if part.Some? then part.value else []) + BodyFrom(cfg, es, id, from + 1)
  }

  lemma {:induction false} BodyFromIsAssemble(cfg: Config, es: seq<Event>, id: string, from: int)
    requires -128 <= from <= 128 && id in Run(cfg, es).uploads
    ensures BodyFrom(cfg, es, id, from) == Assemble(Run(cfg, es).uploads[id], from)
    decreases 128 - from
  {
    if from == 128 {
    } else {
      SessionHoldsLastParts(cfg, es, id, from as i8);
      BodyFromIsAssemble(cfg, es, id, from + 1);
    }
  }

  /**
   Completing an open session is one plain put, without content type, of the parts' latest bodies in
   ascending order; the session is gone afterwards even if that put fails.
   */
  lemma CompleteIsOnePut(cfg: Config, es: seq<Event>, k: ObjectKey, id: string, f: PutFaults)
    requires id in Run(cfg, es).uploads
    ensures var s := Run(cfg, es);
            var (done, st) := Step(s, cfg, Complete(k, id, f));
            var (put, st') := Step(s, cfg, Put(PutRequest(k, None, None, None, BodyFrom(cfg, es, id, -128)), f));
            st == st' && done == put.(uploads := s.uploads - {id})
  {
    BodyFromIsAssemble(cfg, es, id, -128);
  }

  // ---------------------------------------------------------------------------------------------
  // How often a session can be used up.
  // ---------------------------------------------------------------------------------------------

  /** How often the session was granted. */
  function Grants(cfg: Config, es: seq<Event>, id: string): nat
  {
    if es == [] then 0
    else Grants(cfg, es[..|es| - 1], id) + if es[|es| - 1] == Create(id) && LastStatus(cfg, es).Ok200? then 1 else 0
  }

  /** How often an open session was ended. */
  function Uses(cfg: Config, es: seq<Event>, id: string): nat
  {
    if es == [] then 0
    else
      var earlier := es[..|es| - 1];
      Uses(cfg, earlier, id) + if Ends(es[|es| - 1], id) && id in Run(cfg, earlier).uploads then 1 else 0
  }

  /** A session is used up at most as often as it was granted, so once under a fresh identifier. */
  lemma {:induction false} UsedAtMostOnce(cfg: Config, es: seq<Event>, id: string)
    ensures Uses(cfg, es, id) + (if id in Run(cfg, es).uploads then 1 else 0) <= Grants(cfg, es, id)
  {
    if es == [] {
    } else {
      UsedAtMostOnce(cfg, es[..|es| - 1], id);
      StepUploads(Run(cfg, es[..|es| - 1]), cfg, es[|es| - 1]);
    }
  }

  // ---------------------------------------------------------------------------------------------
  // How requests on a session are answered.
  // ---------------------------------------------------------------------------------------------

  /** The session was granted and neither aborted nor completed since, read off the history. */
  predicate OpenSince(cfg: Config, es: seq<Event>, id: string)
  {
    if es == [] then false
    else
      var e := es[|es| - 1];
      if e == Create(id) && LastStatus(cfg, es).Ok200? then true
      else !Ends(e, id) && OpenSince(cfg, es[..|es| - 1], id)
  }

  lemma {:induction false} OpenIff(cfg: Config, es: seq<Event>, id: string)
    ensures id in Run(cfg, es).uploads <==> OpenSince(cfg, es, id)
  {
    if es == [] {
    } else {
      OpenIff(cfg, es[..|es| - 1], id);
      StepUploads(Run(cfg, es[..|es| - 1]), cfg, es[|es| - 1]);
    }
  }

  /** Completing a session that is not open is refused with 400 and changes nothing, whatever would fail. */
  lemma ClosedSessionIsRefused(cfg: Config, es: seq<Event>, k: ObjectKey, id: string, f: PutFaults)
    requires !OpenSince(cfg, es, id)
    ensures Step(Run(cfg, es), cfg, Complete(k, id, f)) == (Run(cfg, es), BadRequest400)
  {
    OpenIff(cfg, es, id);
  }

  lemma {:induction false} StaysClosed(cfg: Config, es: seq<Event>, e: Event, later: seq<Event>, id: string)
    requires Ends(e, id) && Create(id) !in later
    ensures !OpenSince(cfg, es + [e] + later, id)
  {
    if later == [] {
      assert es + [e] + later == es + [e];
      assert (es + [e])[..|es|] == es;
    } else {
      var n := |later| - 1;
      assert (es + [e] + later)[..|es| + 1 + n] == es + [e] + later[..n];
      assert later[n] in later;
      StaysClosed(cfg, es, e, later[..n], id);
    }
  }

  /** So a second completion, and one after an abort, is refused until the identifier is granted again. */
  lemma EndedSessionIsRefused(cfg: Config, es: seq<Event>, e: Event, later: seq<Event>, k: ObjectKey, id: string,
      f: PutFaults)
    requires Ends(e, id) && Create(id) !in later
    ensures var s := Run(cfg, es + [e] + later);
            Step(s, cfg, Complete(k, id, f)) == (s, BadRequest400)
  {
    StaysClosed(cfg, es, e, later, id);
    ClosedSessionIsRefused(cfg, es + [e] + later, k, id, f);
  }

  /** A part is taken by its session if that is open, and refused with 400 without effect if not. */
  lemma PartAnswers(cfg: Config, es: seq<Event>, k: ObjectKey, header: Option<string>, n: int, id: string, body: Bytes,
      f: PutFaults)
    requires -128 <= n <= 127
    ensures var s := Run(cfg, es);
            var (s', st) := Step(s, cfg, Put(PutRequest(k, header, Some(n), Some(id), body), f));
            && s'.core == s.core
            && (OpenSince(cfg, es, id) ==>
                  st.Ok200? && id in s.uploads && s'.uploads == s.uploads[id := s.uploads[id][n as i8 := body]])
            && (!OpenSince(cfg, es, id) ==> st.BadRequest400? && s' == s)
  {
    OpenIff(cfg, es, id);
  }

  /** An abort answers 204 whether the session is open or not; it closes that session and touches nothing else. */
  lemma AbortAnswers(cfg: Config, es: seq<Event>, k: ObjectKey, id: string, f: DeleteFaults)
    ensures var s := Run(cfg, es);
            var (s', st) := Step(s, cfg, Delete(k, Some(id), f));
            && st.NoContent204? && s'.core == s.core && s'.uploads == s.uploads - {id}
            && (!OpenSince(cfg, es, id) ==> s' == s)
  {
    OpenIff(cfg, es, id);
    if id !in Run(cfg, es).uploads {
      assert Run(cfg, es).uploads - {id} == Run(cfg, es).uploads;
    }
  }

  /** A granted session starts without parts; a refused create changes nothing. */
  lemma CreateAnswers(cfg: Config, es: seq<Event>, id: string)
    ensures var s := Run(cfg, es);
            var (s', st) := Step(s, cfg, Create(id));
            if |s.uploads| < cfg.uploadCapacity then st.Ok200? && s' == s.(uploads := s.uploads[id := map[]])
            else st.Unavailable503? && s' == s
  {
  }

  // ---------------------------------------------------------------------------------------------
  // Part numbers.
  // ---------------------------------------------------------------------------------------------

  /**
   A part upload whose number does not fit a signed byte is not refused: it stores the part as the
   whole object under the key, and the session never sees it.  Within the range it leaves every
   object alone.
   */
  lemma PartNumberRange(s: State, cfg: Config, k: ObjectKey, number: int, id: string, body: Bytes, f: PutFaults)
    requires id in s.uploads
    ensures var (s', st) := PutObject(s, cfg, PutRequest(k, None, Some(number), Some(id), body), f);
            && (-128 <= number <= 127 ==>
                  st.Ok200? && s'.core == s.core
                  && number as i8 in s'.uploads[id] && s'.uploads[id][number as i8] == body)
            && (!(-128 <= number <= 127) ==>
                  s'.uploads == s.uploads
                  && (st.Ok200? ==> GetObject(s'.core, k) == Found(body, |body|, ContentTypeOf(cfg, k.key, None))))
  {
  }

  /** So does a put that gives only one of the two part parameters, or none. */
  lemma PartNeedsBoth(s: State, cfg: Config, req: PutRequest, f: PutFaults)
    requires req.partNumber.None? || req.uploadId.None?
    ensures var (s', st) := PutObject(s, cfg, req, f);
            && s'.uploads == s.uploads
            && (st.Ok200? ==> req.key in s'.core.rows && s'.core.rows[req.key].cid == CidOf(req.body))
  {
  }
}
