/**
 The server object.  Its handlers change the table, the node, the slot map and the pending tasks in
 the order of the calls that the bridge makes; each is proved to take the bridge from one state to the next.
 */
module Server {
  import opened Options
  import opened Paths
  import opened IpfsNode
  import opened Database
  import opened Slots
  import opened Bridge

  /** One trim that the runtime gets round to. */
  datatype TrimRun = TrimRun(job: TrimJob, faults: TrimFaults)

  function RunTrims(s: Core, cfg: Config, ts: seq<TrimRun>): Core
  {
    if ts == [] then s
    else RunTrim(RunTrims(s, cfg, ts[..|ts| - 1]), cfg, ts[|ts| - 1].job, ts[|ts| - 1].faults)
  }

  /** One entry of a `DeleteObjects` request, with the trims that ran while the entry waited. */
  datatype Entry = Entry(key: string, faults: DeleteFaults, before: seq<TrimRun>)

  datatype Deletion = Deletion(core: Core, deleted: seq<string>, error: seq<string>)

  /** One turn of the loop: an entry is deleted on its own and sorted into one of the lists. */
  function Turn(cfg: Config, bucket: string, d: Deletion, entry: Entry): Deletion
  {
    var (core, st) := RemoveObject(RunTrims(d.core, cfg, entry.before), cfg, ObjectKey(bucket, entry.key), entry.faults);
    if Success(st) then Deletion(core, d.deleted + [entry.key], d.error)
    else Deletion(core, d.deleted, d.error + [entry.key])
  }

  function DeleteObjects(s: Core, cfg: Config, bucket: string, entries: seq<Entry>): Deletion
  {
    if entries == [] then Deletion(s, [], [])
    else Turn(cfg, bucket, DeleteObjects(s, cfg, bucket, entries[..|entries| - 1]), entries[|entries| - 1])
  }

  class App {
    const config: Config
    const db: MetadataDb
    const ipfs: IpfsClient
    const slots: LimitedSlotsMap<string, Session>
    var unpins: multiset<Cid>
    var trims: multiset<TrimJob>

    /** No two sessions share their parts. */
    ghost predicate Valid()
      reads this, slots
    {
      && slots.Valid()
      && slots.capacity == config.uploadCapacity
      && forall a, b :: a in slots.slots && b in slots.slots && slots.slots[a] == slots.slots[b] ==> a == b
    }

    ghost function Uploads(): map<string, PartMap>
      reads slots, slots.slots.Values
    {
      map id | id in slots.slots :: slots.slots[id].parts
    }

    ghost function Contents(): Core
      reads this, db, ipfs
    {
      Core(db.rows, ipfs.Remote(), unpins, trims)
    }

    ghost function Model(): State
      reads this, db, ipfs, slots, slots.slots.Values
    {
      State(Contents(), Uploads())
    }

    constructor (config: Config)
      ensures Valid() && Model() == EMPTY && this.config == config
    {
      this.config := config;
      db := new MetadataDb();
      ipfs := new IpfsClient();
      slots := new LimitedSlotsMap.WithCapacity(config.uploadCapacity);
      unpins := multiset{};
      trims := multiset{};
    }

    method StoreObjectAt(k: ObjectKey, header: Option<string>, body: Bytes, f: PutFaults) returns (st: Status)
      modifies this, db, ipfs
      ensures (Contents(), st) == StoreObject(old(Contents()), config, k, header, body, f)
    {
      var old_ := db.GetObjectMetadata(k, f.select);
      if old_.Err? {
        return Error500;
      }
      var contentType := ContentTypeOf(config, k.key, header);
      var path := PushAndNormalize(config.prefix, k.bucket, k.key);
      if path.None? {
        return BadRequest400;
      }
      var added := ipfs.AddContentAt(path.value, body, f.add, f.link);
      if added.None? {
        return Error500;
      }
      var stored := db.StoreObjectMetadata(k, added.value, |body|, contentType, f.upsert);
      if !stored {
        return Error500;
      }
      assert unpins + multiset{} == unpins;
      if old_.value.Some? && old_.value.value.cid != added.value {
        unpins := unpins + multiset{old_.value.value.cid};
      }
      return Ok200;
    }

    method PutObjectAt(req: PutRequest, f: PutFaults) returns (st: Status)
      requires Valid()
      modifies this, db, ipfs, slots.slots.Values
      ensures Valid() && (Model(), st) == PutObject(old(Model()), config, req, f)
    {
      var part := PartParams(req.partNumber, req.uploadId);
      if part.Some? {
        var slot := slots.Get(part.value.1);
        if slot.Some? {
          slot.value.InsertPart(part.value.0, req.body);
          assert Uploads() == old(Uploads())[part.value.1 := old(Uploads())[part.value.1][part.value.0 := req.body]];
          return Ok200;
        }
        return BadRequest400;
      }
      st := StoreObjectAt(req.key, req.header, req.body, f);
    }

    method UnpinIfOrphanAt(cid: Cid, f: OrphanFaults) returns (ok: bool)
      modifies ipfs
      ensures (Contents(), ok) == UnpinIfOrphan(old(Contents()), cid, f)
    {
      var remaining := db.CidCount(cid, f.count);
      if remaining.Err? {
        return false;
      }
      if remaining.value == 0 {
        ok := ipfs.UnpinCid(cid, f.unpin);
        return;
      }
      return true;
    }

    method RemoveObjectAt(k: ObjectKey, f: DeleteFaults) returns (st: Status)
      modifies this, db, ipfs
      ensures (Contents(), st) == RemoveObject(old(Contents()), config, k, f)
    {
      var metadata := db.GetObjectMetadata(k, f.select);
      if metadata.Err? {
        return Error500;
      }
      if metadata.value.None? {
        return NotFound404;
      }
      var path := PushAndNormalize(config.prefix, k.bucket, k.key);
      if path.None? {
        return Error500;
      }
      var unlinked := ipfs.UnlinkPath(path.value, f.unlink);
      if !unlinked {
        return Error500;
      }
      var removed := db.DeleteObjectMetadata(k, f.remove);
      if !removed {
        return Error500;
      }
      var ok := UnpinIfOrphanAt(metadata.value.value.cid, f.orphan);
      if !ok {
        return Error500;
      }
      if config.trimEmptyFolders {
        trims := trims + multiset{Find(k)};
      }
      return NoContent204;
    }

    method DeleteObjectAt(k: ObjectKey, uploadId: Option<string>, f: DeleteFaults) returns (st: Status)
      requires Valid()
      modifies this, db, ipfs, slots
      ensures Valid() && (Model(), st) == DeleteObject(old(Model()), config, k, uploadId, f)
    {
      if uploadId.Some? {
        var _ := TakeSession(uploadId.value);
        return NoContent204;
      }
      st := RemoveObjectAt(k, f);
    }

    method OpenSession(id: string) returns (ok: bool)
      requires Valid()
      modifies slots
      ensures Valid() && ok == (|old(slots.slots)| < config.uploadCapacity)
      ensures Uploads() == if ok then old(Uploads())[id := map[]] else old(Uploads())
    {
      var parts := new Session();
      var r := slots.Insert(id, parts);
      return r.Ok?;
    }

    method TakeSession(id: string) returns (r: Option<PartMap>)
      requires Valid()
      modifies slots
      ensures Valid() && Uploads() == old(Uploads()) - {id}
      ensures r == if id in old(Uploads()) then Some(old(Uploads())[id]) else None
    {
      var slot := slots.Remove(id);
      return if slot.Some? then Some(slot.value.parts) else None;
    }

    method CreateUploadAt(id: string) returns (st: Status)
      requires Valid()
      modifies slots
      ensures Valid() && (Model(), st) == CreateUpload(old(Model()), config, id)
    {
      ghost var before := Uploads();
      assert before.Keys == slots.slots.Keys;
      assert |before| == |before.Keys| == |slots.slots.Keys| == |slots.slots|;
      var ok := OpenSession(id);
      return if ok then Ok200 else Unavailable503;
    }

    method CompleteUploadAt(k: ObjectKey, id: string, f: PutFaults) returns (st: Status)
      requires Valid()
      modifies this, db, ipfs, slots
      ensures Valid()
      ensures (Model(), st) == CompleteUpload(old(Model()), config, k, id, f)
    {
      ghost var was := Model();
      var session := TakeSession(id);
      ghost var left := Uploads();
      assert Model() == was.(uploads := left);
      if session.None? {
        assert left == was.uploads;
        return BadRequest400;
      }
      assert id in was.uploads && session.value == was.uploads[id];
      st := StoreAssembled(k, session.value, f);
    }

    /** Puts the parts together and re-enters the put, without a content type. */
    method StoreAssembled(k: ObjectKey, parts: PartMap, f: PutFaults) returns (st: Status)
      requires Valid()
      modifies this, db, ipfs
      ensures Valid() && Uploads() == old(Uploads())
      ensures (Contents(), st) == StoreObject(old(Contents()), config, k, None, AssembledBody(parts), f)
    {
      var body := CollectBody(parts);
      st := StoreObjectAt(k, None, body, f);
    }

    method RunUnpinTask(cid: Cid, f: OrphanFaults)
      modifies this, ipfs
      ensures Contents() == RunUnpin(old(Contents()), cid, f)
    {
      if cid in unpins {
        unpins := unpins - multiset{cid};
        var _ := UnpinIfOrphanAt(cid, f);
      }
    }

    method RunTrimTask(job: TrimJob, f: TrimFaults)
      modifies this, ipfs
      ensures Contents() == RunTrim(old(Contents()), config, job, f)
    {
      if job !in trims {
        return;
      }
      trims := trims - multiset{job};
      match job {
        case Find(k) =>
          var found := db.FindShallowestRemovableDirectory(k.bucket, k.key, f.failAt);
          if found.Ok? && found.value.Some? {
            var path := PushAndNormalize(config.prefix, k.bucket, found.value.value);
            if path.Some? {
              trims := trims + multiset{Remove(k.bucket, path.value)};
            }
          }
        case Remove(_, path) =>
          var _ := ipfs.UnlinkPath(path, f.unlink);
      }
    }

    /** The `DeleteObjects` loop: every entry is deleted on its own and sorted into a list. */
    method ModifyBucket(bucket: string, entries: seq<Entry>) returns (deleted: seq<string>, error: seq<string>)
      modifies this, db, ipfs
      ensures Deletion(Contents(), deleted, error) == DeleteObjects(old(Contents()), config, bucket, entries)
    {
      deleted, error := [], [];
      var i := 0;
      while i < |entries|
        invariant 0 <= i <= |entries|
        invariant Deletion(Contents(), deleted, error) == DeleteObjects(old(Contents()), config, bucket, entries[..i])
      {
        var entry := entries[i];
        assert entries[..i + 1][..i] == entries[..i];
        ghost var s := Contents();
        var j := 0;
        while j < |entry.before|
          invariant 0 <= j <= |entry.before|
          invariant Contents() == RunTrims(s, config, entry.before[..j])
        {
          assert entry.before[..j + 1][..j] == entry.before[..j];
          RunTrimTask(entry.before[j].job, entry.before[j].faults);
          j := j + 1;
        }
        assert entry.before[..j] == entry.before;
        var st := RemoveObjectAt(ObjectKey(bucket, entry.key), entry.faults);
        if Success(st) {
          deleted := deleted + [entry.key];
        } else {
          error := error + [entry.key];
        }
        i := i + 1;
      }
      assert entries[..i] == entries;
    }
  }
}
