/**
 The bridge with each request as one step.  Its core holds the metadata rows, the node and the tasks
 that were spawned but have not run; beside it are the open multipart sessions.  Requests answer
 with a status; the failures the backends inject are arguments of the step.
 */
module Bridge {
  import opened Options
  import opened Paths
  import opened IpfsNode
  import opened Database
  import opened Slots

  datatype Config = Config(prefix: string, trimEmptyFolders: bool, autoMime: bool, mime: string -> string,
                           uploadCapacity: nat)

  /**
   A spawned trim first looks for the directory to remove and then removes it; other work may come
   between the two.
   */
  datatype TrimJob = Find(key: ObjectKey) | Remove(bucket: string, path: Path)

  datatype Core = Core(rows: Rows, node: Node, unpins: multiset<Cid>, trims: multiset<TrimJob>)

  datatype State = State(core: Core, uploads: map<string, PartMap>)

  const EMPTY_CORE := Core(map[], EMPTY_NODE, multiset{}, multiset{})

  const EMPTY := State(EMPTY_CORE, map[])

  datatype Status = Ok200 | NoContent204 | BadRequest400 | NotFound404 | Error500 | Unavailable503

  predicate Success(st: Status)
  {
    st.Ok200? || st.NoContent204?
  }

  // What the backends answer during one request: `true` or `Done` is a healthy answer.
  datatype PutFaults = PutFaults(select: bool, add: Reply, link: Reply, upsert: bool)
  datatype OrphanFaults = OrphanFaults(count: bool, unpin: Reply)
  datatype DeleteFaults = DeleteFaults(select: bool, unlink: Reply, remove: bool, orphan: OrphanFaults)
  datatype TrimFaults = TrimFaults(failAt: Option<nat>, unlink: Reply)

  const HEALTHY_PUT := PutFaults(true, Done, Done, true)
  const HEALTHY_ORPHAN := OrphanFaults(true, Done)
  const HEALTHY_DELETE := DeleteFaults(true, Done, true, HEALTHY_ORPHAN)
  const HEALTHY_TRIM := TrimFaults(None, Done)

  function PathOf(cfg: Config, k: ObjectKey): Option<Path>
  {
    NormalizedPath(cfg.prefix, k.bucket, k.key)
  }

  function ContentTypeOf(cfg: Config, key: string, header: Option<string>): string
  {
    if header.Some? then header.value
    else if cfg.autoMime then cfg.mime(key)
    else "application/octet-stream"
  }

  /** `PutObject` without part parameters. */
  function StoreObject(s: Core, cfg: Config, k: ObjectKey, header: Option<string>, body: Bytes, f: PutFaults):
    (Core, Status)
  {
    var path := PathOf(cfg, k);
    if !f.select then (s, Error500)
    else if path.None? then (s, BadRequest400)
    else
      var (node, added) := AddContent(s.node, path.value, body, f.add, f.link);
      if added.None? || !f.upsert then (s.(node := node), Error500)
      else
        var row := Row(added.value, |body|, ContentTypeOf(cfg, k.key, header));
        var orphaned := if k in s.rows && s.rows[k].cid != row.cid then multiset{s.rows[k].cid} else multiset{};
        (s.(rows := s.rows[k := row], node := node, unpins := s.unpins + orphaned), Ok200)
  }

  /**
   The part parameters are a flattened optional record: they are present only if both are given and
   the number fits a signed byte.  Anything else is read as a plain put.
   */
  function PartParams(partNumber: Option<int>, uploadId: Option<string>): Option<(i8, string)>
  {
    if partNumber.Some? && uploadId.Some? && -128 <= partNumber.value <= 127
    then Some((partNumber.value as i8, uploadId.value))
    else None
  }

  datatype PutRequest = PutRequest(key: ObjectKey, header: Option<string>, partNumber: Option<int>,
                                   uploadId: Option<string>, body: Bytes)

  function PutObject(s: State, cfg: Config, req: PutRequest, f: PutFaults): (State, Status)
  {
    match PartParams(req.partNumber, req.uploadId)
    case Some((n, id)) => UploadPart(s, id, n, req.body)
    case None =>
      var (core, st) := StoreObject(s.core, cfg, req.key, req.header, req.body, f);
      (s.(core := core), st)
  }

  function UploadPart(s: State, id: string, n: i8, body: Bytes): (State, Status)
  {
    if id in s.uploads then (s.(uploads := s.uploads[id := s.uploads[id][n := body]]), Ok200)
    else (s, BadRequest400)
  }

  /** Counts the rows that name the identifier and unpins it when there is none. */
  function UnpinIfOrphan(s: Core, cid: Cid, f: OrphanFaults): (Core, bool)
  {
    if !f.count then (s, false)
    else if cid in CidsOf(s.rows) then (s, true)
    else
      var (node, ok) := Unpin(s.node, cid, f.unpin);
      (s.(node := node), ok)
  }

  /** `DeleteObject` without an upload id. */
  function RemoveObject(s: Core, cfg: Config, k: ObjectKey, f: DeleteFaults): (Core, Status)
  {
    var path := PathOf(cfg, k);
    if !f.select then (s, Error500)
    else if k !in s.rows then (s, NotFound404)
    else if path.None? then (s, Error500)
    else
      var (node, unlinked) := Unlink(s.node, path.value, f.unlink);
      if !unlinked || !f.remove then (s.(node := node), Error500)
      else
        var (s', ok) := UnpinIfOrphan(s.(rows := s.rows - {k}, node := node), s.rows[k].cid, f.orphan);
        if !ok then (s', Error500)
        else (if cfg.trimEmptyFolders then s'.(trims := s'.trims + multiset{Find(k)}) else s', NoContent204)
  }

  function DeleteObject(s: State, cfg: Config, k: ObjectKey, uploadId: Option<string>, f: DeleteFaults):
    (State, Status)
  {
    if uploadId.Some? then (s.(uploads := s.uploads - {uploadId.value}), NoContent204)
    else
      var (core, st) := RemoveObject(s.core, cfg, k, f);
      (s.(core := core), st)
  }

  /** A session is refused when the slot map is full; the identifier is drawn by the environment. */
  function CreateUpload(s: State, cfg: Config, id: string): (State, Status)
  {
    if |s.uploads| >= cfg.uploadCapacity then (s, Unavailable503)
    else (s.(uploads := s.uploads[id := map[]]), Ok200)
  }

  /** The session is gone whatever becomes of the put that stores the assembled body. */
  function CompleteUpload(s: State, cfg: Config, k: ObjectKey, id: string, f: PutFaults): (State, Status)
  {
    if id !in s.uploads then (s, BadRequest400)
    else
      var (core, st) := StoreObject(s.core, cfg, k, None, AssembledBody(s.uploads[id]), f);
      (State(core, s.uploads - {id}), st)
  }

  /** A pending orphan check; its errors are dropped. */
  function RunUnpin(s: Core, cid: Cid, f: OrphanFaults): Core
  {
    if cid !in s.unpins then s
    else UnpinIfOrphan(s.(unpins := s.unpins - multiset{cid}), cid, f).0
  }

  /** A pending trim; its errors are dropped. */
  function RunTrim(s: Core, cfg: Config, job: TrimJob, f: TrimFaults): Core
  {
    if job !in s.trims then s
    else
      var s' := s.(trims := s.trims - multiset{job});
      match job
      case Find(k) =>
        var found := Walk(s.rows, k.bucket, k.key, f.failAt, None);
        if found.Err? || found.value.None? then s'
        else
          var path := NormalizedPath(cfg.prefix, k.bucket, found.value.value);
          if path.None? then s' else s'.(trims := s'.trims + multiset{Remove(k.bucket, path.value)})
      case Remove(_, path) => s'.(node := Unlink(s.node, path, f.unlink).0)
  }

  datatype GetResult = NotFound | Unavailable | Found(body: Bytes, size: int, contentType: string)

  /** `GetObject` answering directly: the row names the content, the node serves its block. */
  function GetObject(s: Core, k: ObjectKey): GetResult
  {
    if k !in s.rows then NotFound
    else if s.rows[k].cid !in s.node.blocks then Unavailable
    else Found(s.node.blocks[s.rows[k].cid], s.rows[k].size, s.rows[k].contentType)
  }

  // ---------------------------------------------------------------------------------------------
  // Runs.
  // ---------------------------------------------------------------------------------------------

  datatype Event =
    | Put(req: PutRequest, pf: PutFaults)
    | Delete(key: ObjectKey, uploadId: Option<string>, df: DeleteFaults)
    | Create(id: string)
    | Complete(ckey: ObjectKey, id: string, pf: PutFaults)
    | TaskUnpin(cid: Cid, of: OrphanFaults)
    | TaskTrim(job: TrimJob, tf: TrimFaults)
    | Gc(doomed: set<Cid>)

  /** One event; a task or a collection has no status of its own and reports Ok200. */
  function Step(s: State, cfg: Config, e: Event): (State, Status)
  {
    match e
    case Put(req, f) => PutObject(s, cfg, req, f)
    case Delete(k, id, f) => DeleteObject(s, cfg, k, id, f)
    case Create(id) => CreateUpload(s, cfg, id)
    case Complete(k, id, f) => CompleteUpload(s, cfg, k, id, f)
    case TaskUnpin(cid, f) => (s.(core := RunUnpin(s.core, cid, f)), Ok200)
    case TaskTrim(job, f) => (s.(core := RunTrim(s.core, cfg, job, f)), Ok200)
    case Gc(doomed) => (s.(core := s.core.(node := Collect(s.core.node, doomed))), Ok200)
  }

  /** The state after a history, from the empty bridge. */
  function Run(cfg: Config, es: seq<Event>): State
  {
    if es == [] then EMPTY else Step(Run(cfg, es[..|es| - 1]), cfg, es[|es| - 1]).0
  }

  /** The status the last event of a history got. */
  function LastStatus(cfg: Config, es: seq<Event>): Status
    requires es != []
  {
    Step(Run(cfg, es[..|es| - 1]), cfg, es[|es| - 1]).1
  }
}
