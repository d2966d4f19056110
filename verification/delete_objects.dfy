/**
 `DeleteObjects`.  On a healthy node, with trims of earlier entries running at any time between later
 ones, the answer is a stable partition of the request that can be read off the table at the start.
 */
module DeleteMany {
  import opened Database
  import opened Bridge
  import opened Pins
  import opened Tree
  import opened Server

  function KeysOf(entries: seq<Entry>): seq<string>
  {
    if entries == [] then [] else KeysOf(entries[..|entries| - 1]) + [entries[|entries| - 1].key]
  }

  function LiveIn(rows: Rows, bucket: string): set<string>
  {
    set k | k in rows && k.bucket == bucket :: k.key
  }

  /** The first occurrences of the live keys, in request order. */
  function FirstLive(keys: seq<string>, live: set<string>): seq<string>
  {
    if keys == [] then []
    else
      var last, before := keys[|keys| - 1], keys[..|keys| - 1];
      FirstLive(before, live) + if last in live && last !in before then [last] else []
  }

  /** Everything else: unknown keys and repetitions, in request order. */
  function TheRest(keys: seq<string>, live: set<string>): seq<string>
  {
    if keys == [] then []
    else
      var last, before := keys[|keys| - 1], keys[..|keys| - 1];
      TheRest(before, live) + if last in live && last !in before then [] else [last]
  }

  function Without(rows: Rows, bucket: string, keys: seq<string>): Rows
  {
    map k | k in rows && !(k.bucket == bucket && k.key in keys) :: rows[k]
  }

  lemma {:induction false} PartitionIsComplete(keys: seq<string>, live: set<string>)
    ensures multiset(FirstLive(keys, live)) + multiset(TheRest(keys, live)) == multiset(keys)
  {
    if keys == [] {
    } else {
      PartitionIsComplete(keys[..|keys| - 1], live);
      assert keys == keys[..|keys| - 1] + [keys[|keys| - 1]];
    }
  }

  lemma {:induction false} DeletedOnce(keys: seq<string>, live: set<string>)
    ensures forall x :: x in FirstLive(keys, live) <==> x in keys && x in live
    ensures forall i, j :: 0 <= i < j < |FirstLive(keys, live)| ==> FirstLive(keys, live)[i] != FirstLive(keys, live)[j]
  {
    if keys == [] {
    } else {
      DeletedOnce(keys[..|keys| - 1], live);
      assert keys == keys[..|keys| - 1] + [keys[|keys| - 1]];
    }
  }

  lemma {:induction false} TrimsKeepAnchored(s: Core, cfg: Config, ts: seq<TrimRun>)
    requires Anchored(s, cfg) && PinSafe(s)
    ensures var s' := RunTrims(s, cfg, ts);
            Anchored(s', cfg) && PinSafe(s') && s'.rows == s.rows
  {
    if ts == [] {
    } else {
      var last := ts[|ts| - 1];
      TrimsKeepAnchored(s, cfg, ts[..|ts| - 1]);
      var mid := RunTrims(s, cfg, ts[..|ts| - 1]);
      TrimKeepsAnchored(mid, cfg, last.job, last.faults);
      TrimKeepsContent(mid, cfg, last.job, last.faults);
    }
  }

  lemma WithoutOneMore(rows: Rows, bucket: string, keys: seq<string>, last: string)
    ensures Without(rows, bucket, keys + [last]) == Without(rows, bucket, keys) - {ObjectKey(bucket, last)}
    ensures ObjectKey(bucket, last) in Without(rows, bucket, keys) <==> last in LiveIn(rows, bucket) && last !in keys
  {
    var k := ObjectKey(bucket, last);
    if last in LiveIn(rows, bucket) {
      var k' :| k' in rows && k'.bucket == bucket && k'.key == last;
      assert k' == k;
    }
  }

  /** What the request has come to after the entries with the given keys. */
  ghost predicate Outcome(rows: Rows, cfg: Config, bucket: string, keys: seq<string>, d: Deletion)
  {
    && d.deleted == FirstLive(keys, LiveIn(rows, bucket))
    && d.error == TheRest(keys, LiveIn(rows, bucket))
    && d.core.rows == Without(rows, bucket, keys)
    && Anchored(d.core, cfg) && PinSafe(d.core)
  }

  lemma OneMoreKey(keys: seq<string>, last: string, live: set<string>)
    ensures FirstLive(keys + [last], live) == FirstLive(keys, live) + if last in live && last !in keys then [last] else []
    ensures TheRest(keys + [last], live) == TheRest(keys, live) + if last in live && last !in keys then [] else [last]
  {
    assert (keys + [last])[..|keys|] == keys;
  }

  lemma TurnKeepsOutcome(rows: Rows, cfg: Config, bucket: string, keys: seq<string>, d: Deletion, last: Entry)
    requires Outcome(rows, cfg, bucket, keys, d) && last.faults == HEALTHY_DELETE
    ensures Outcome(rows, cfg, bucket, keys + [last.key], Turn(cfg, bucket, d, last))
  {
    TrimsKeepAnchored(d.core, cfg, last.before);
    DeleteKeepsAnchored(RunTrims(d.core, cfg, last.before), cfg, ObjectKey(bucket, last.key));
    WithoutOneMore(rows, bucket, keys, last.key);
    OneMoreKey(keys, last.key, LiveIn(rows, bucket));
  }

  lemma {:induction false} LoopReachesOutcome(s: Core, cfg: Config, bucket: string, entries: seq<Entry>)
    requires Anchored(s, cfg) && PinSafe(s)
    requires forall e :: e in entries ==> e.faults == HEALTHY_DELETE
    ensures Outcome(s.rows, cfg, bucket, KeysOf(entries), DeleteObjects(s, cfg, bucket, entries))
  {
    if entries == [] {
      assert Without(s.rows, bucket, []) == s.rows;
    } else {
      var n := |entries| - 1;
      LoopReachesOutcome(s, cfg, bucket, entries[..n]);
      TurnKeepsOutcome(s.rows, cfg, bucket, KeysOf(entries[..n]), DeleteObjects(s, cfg, bucket, entries[..n]), entries[n]);
    }
  }

  /** The outcome of the whole request, whatever trims ran in between and however they failed. */
  lemma DeleteObjectsOutcome(s: Core, cfg: Config, bucket: string, entries: seq<Entry>)
    requires Anchored(s, cfg) && PinSafe(s)
    requires forall e :: e in entries ==> e.faults == HEALTHY_DELETE
    ensures var d := DeleteObjects(s, cfg, bucket, entries);
            var live := LiveIn(s.rows, bucket);
            && d.deleted == FirstLive(KeysOf(entries), live)
            && d.error == TheRest(KeysOf(entries), live)
            && multiset(d.deleted) + multiset(d.error) == multiset(KeysOf(entries))
            && d.core.rows == Without(s.rows, bucket, KeysOf(entries))
            && Anchored(d.core, cfg) && PinSafe(d.core)
  {
    LoopReachesOutcome(s, cfg, bucket, entries);
    PartitionIsComplete(KeysOf(entries), LiveIn(s.rows, bucket));
  }

  /** After every careful run the request has this outcome: it deletes what is live, each key once. */
  lemma DeleteObjectsAfterRun(cfg: Config, es: seq<Event>, bucket: string, entries: seq<Entry>)
    requires CarefulRun(cfg, es) && forall e :: e in entries ==> e.faults == HEALTHY_DELETE
    ensures var s := Run(cfg, es).core;
            var d := DeleteObjects(s, cfg, bucket, entries);
            && d.deleted == FirstLive(KeysOf(entries), LiveIn(s.rows, bucket))
            && d.error == TheRest(KeysOf(entries), LiveIn(s.rows, bucket))
            && d.core.rows == Without(s.rows, bucket, KeysOf(entries))
  {
    CarefulRunIsAnchored(cfg, es);
    RunIsPinSafe(cfg, es);
    DeleteObjectsOutcome(Run(cfg, es).core, cfg, bucket, entries);
  }

  // ---------------------------------------------------------------------------------------------
  // Under any faults.
  // ---------------------------------------------------------------------------------------------

  lemma RemoveTakesAtMost(s: Core, cfg: Config, k: ObjectKey, f: DeleteFaults)
    ensures var (s', st) := RemoveObject(s, cfg, k, f);
            && (s'.rows == s.rows || s'.rows == s.rows - {k})
            && (st.NoContent204? ==> k in s.rows && k !in s'.rows)
  {
  }

  lemma {:induction false} TrimsKeepRows(s: Core, cfg: Config, ts: seq<TrimRun>)
    ensures RunTrims(s, cfg, ts).rows == s.rows
  {
    if ts == [] {
    } else {
      TrimsKeepRows(s, cfg, ts[..|ts| - 1]);
      TrimKeepsContent(RunTrims(s, cfg, ts[..|ts| - 1]), cfg, ts[|ts| - 1].job, ts[|ts| - 1].faults);
    }
  }

  /** The trims of an entry run one after the other. */
  lemma {:induction false} TrimsRunInOrder(s: Core, cfg: Config, ts: seq<TrimRun>, t: TrimRun, us: seq<TrimRun>)
    ensures RunTrims(s, cfg, ts + [t] + us) == RunTrims(RunTrim(RunTrims(s, cfg, ts), cfg, t.job, t.faults), cfg, us)
  {
    if us == [] {
      assert ts + [t] + us == ts + [t];
      LastTrim(s, cfg, ts, t);
    } else {
      var n := |us| - 1;
      TrimsRunInOrder(s, cfg, ts, t, us[..n]);
      LastTrim(s, cfg, ts + [t] + us[..n], us[n]);
      LastTrim(RunTrim(RunTrims(s, cfg, ts), cfg, t.job, t.faults), cfg, us[..n], us[n]);
      assert ts + [t] + us == ts + [t] + us[..n] + [us[n]] && us == us[..n] + [us[n]];
    }
  }

  lemma LastTrim(s: Core, cfg: Config, ts: seq<TrimRun>, t: TrimRun)
    ensures RunTrims(s, cfg, ts + [t]) == RunTrim(RunTrims(s, cfg, ts), cfg, t.job, t.faults)
  {
    assert (ts + [t])[..|ts|] == ts;
  }

  /** An entry is listed as deleted exactly if its delete answers 204, and as an error otherwise. */
  lemma TurnLists(cfg: Config, bucket: string, d: Deletion, e: Entry)
    ensures var d' := Turn(cfg, bucket, d, e);
            var (core, st) := RemoveObject(RunTrims(d.core, cfg, e.before), cfg, ObjectKey(bucket, e.key), e.faults);
            && d'.core == core
            && (st.NoContent204? ==> d'.deleted == d.deleted + [e.key] && d'.error == d.error)
            && (!st.NoContent204? ==> d'.deleted == d.deleted && d'.error == d.error + [e.key])
  {
  }

  /** A key reported deleted was live at the start and is gone, none twice, and nothing else is touched. */
  ghost predicate Truthful(rows: Rows, bucket: string, keys: seq<string>, d: Deletion)
  {
    && (forall x :: x in d.deleted ==> ObjectKey(bucket, x) in rows && ObjectKey(bucket, x) !in d.core.rows)
    && (forall i, j :: 0 <= i < j < |d.deleted| ==> d.deleted[i] != d.deleted[j])
    && (forall k :: k in d.core.rows ==> k in rows && d.core.rows[k] == rows[k])
    && (forall k :: k in rows && k !in d.core.rows ==> k.bucket == bucket && k.key in keys)
  }

  lemma TurnKeepsTruth(rows: Rows, cfg: Config, bucket: string, keys: seq<string>, d: Deletion, e: Entry)
    requires Truthful(rows, bucket, keys, d)
    ensures Truthful(rows, bucket, keys + [e.key], Turn(cfg, bucket, d, e))
  {
    var mid, k := RunTrims(d.core, cfg, e.before), ObjectKey(bucket, e.key);
    TurnLists(cfg, bucket, d, e);
    TrimsKeepRows(d.core, cfg, e.before);
    RemoveTakesAtMost(mid, cfg, k, e.faults);
    RowsShrinkTruthfully(rows, bucket, keys, d, e.key, Turn(cfg, bucket, d, e));
  }

  lemma RowsShrinkTruthfully(rows: Rows, bucket: string, keys: seq<string>, d: Deletion, key: string, d': Deletion)
    requires Truthful(rows, bucket, keys, d)
    requires d'.core.rows == d.core.rows || d'.core.rows == d.core.rows - {ObjectKey(bucket, key)}
    requires d'.deleted == d.deleted
             || (d'.deleted == d.deleted + [key] && ObjectKey(bucket, key) in d.core.rows && ObjectKey(bucket, key) !in d'.core.rows)
    ensures Truthful(rows, bucket, keys + [key], d')
  {
    if d'.deleted == d.deleted + [key] {
      forall x | x in d'.deleted ensures ObjectKey(bucket, x) in rows && ObjectKey(bucket, x) !in d'.core.rows {
        assert x in d.deleted || x == key;
      }
      assert key !in d.deleted;
    }
  }

  /** Whatever fails and wherever the trims run, the answer is true of the table. */
  lemma {:induction false} ListsTellTheTruth(s: Core, cfg: Config, bucket: string, entries: seq<Entry>)
    ensures Truthful(s.rows, bucket, KeysOf(entries), DeleteObjects(s, cfg, bucket, entries))
  {
    if entries == [] {
    } else {
      var n := |entries| - 1;
      ListsTellTheTruth(s, cfg, bucket, entries[..n]);
      TurnKeepsTruth(s.rows, cfg, bucket, KeysOf(entries[..n]), DeleteObjects(s, cfg, bucket, entries[..n]), entries[n]);
    }
  }

  /** And every entry is in exactly one of the lists. */
  lemma {:induction false} ListsAreComplete(s: Core, cfg: Config, bucket: string, entries: seq<Entry>)
    ensures var d := DeleteObjects(s, cfg, bucket, entries);
            multiset(d.deleted) + multiset(d.error) == multiset(KeysOf(entries))
  {
    if entries == [] {
    } else {
      var n := |entries| - 1;
      ListsAreComplete(s, cfg, bucket, entries[..n]);
      TurnLists(cfg, bucket, DeleteObjects(s, cfg, bucket, entries[..n]), entries[n]);
    }
  }
}
