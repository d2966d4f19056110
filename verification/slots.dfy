/** The bounded slot map that holds multipart sessions, and the parts of one session. */
module Slots {
  import opened Options
  import opened IpfsNode

  newtype i8 = n: int | -128 <= n <= 127

  type PartMap = map<i8, Bytes>

  /** A map that refuses an insertion which could make it grow past its capacity. */
  class LimitedSlotsMap<K(==), V> {
    const capacity: nat
    var slots: map<K, V>

    ghost predicate Valid()
      reads this
    {
      |slots| <= capacity
    }

    constructor WithCapacity(size: nat)
      ensures Valid() && capacity == size && slots == map[]
    {
      capacity := size;
      slots := map[];
    }

    /** Refused exactly when the map is full; otherwise the previous value comes back. */
    method Insert(key: K, value: V) returns (r: Result<Option<V>>)
      requires Valid()
      modifies this
      ensures Valid()
      ensures r.Err? <==> |old(slots)| == capacity
      ensures r.Err? ==> slots == old(slots)
      ensures r.Ok? ==> slots == old(slots)[key := value]
      ensures r.Ok? ==> r.value == (if key in old(slots) then Some(old(slots)[key]) else None)
    {
      if |slots| >= capacity {
        return Err;
      }
      r := Ok(if key in slots then Some(slots[key]) else None);
      InsertedSize(slots, key, value);
      slots := slots[key := value];
    }

    method Get(key: K) returns (r: Option<V>)
      ensures r == if key in slots then Some(slots[key]) else None
    {
      return if key in slots then Some(slots[key]) else None;
    }

    method Remove(key: K) returns (r: Option<V>)
      requires Valid()
      modifies this
      ensures Valid()
      ensures r == if key in old(slots) then Some(old(slots)[key]) else None
      ensures slots == old(slots) - {key}
    {
      r := if key in slots then Some(slots[key]) else None;
      RemovedSize(slots, key);
      slots := slots - {key};
    }
  }

  lemma InsertedSize<K, V>(m: map<K, V>, key: K, value: V)
    ensures |m[key := value]| == if key in m then |m| else |m| + 1
  {
    assert m[key := value].Keys == m.Keys + {key};
  }

  lemma RemovedSize<K, V>(m: map<K, V>, key: K)
    ensures |m - {key}| == if key in m then |m| - 1 else |m|
  {
    assert (m - {key}).Keys == m.Keys - {key};
  }

  /** The parts uploaded so far for one session; a later upload of a part replaces it. */
  class Session {
    var parts: PartMap

    constructor ()
      ensures parts == map[]
    {
      parts := map[];
    }

    method InsertPart(n: i8, body: Bytes)
      modifies this
      ensures parts == old(parts)[n := body]
    {
      parts := parts[n := body];
    }
  }

  // ---------------------------------------------------------------------------------------------
  // Putting a finished upload together.
  // ---------------------------------------------------------------------------------------------

  /** The finished body: every part number that is present, in ascending order. */
  function Assemble(parts: PartMap, from: int): Bytes
    requires -128 <= from <= 128
    decreases |parts|, 128 - from
  {
    if from == 128 then []
    else (if from as i8 in parts then parts[from as i8] else []) + Assemble(parts, from + 1)
  }

  function AssembledBody(parts: PartMap): Bytes
  {
    Assemble(parts, -128)
  }

  type Entries = seq<(i8, Bytes)>

  ghost predicate Ascending(xs: Entries)
  {
    forall i, j :: 0 <= i < j < |xs| ==> xs[i].0 < xs[j].0
  }

  function InsertByNumber(x: (i8, Bytes), xs: Entries): (r: Entries)
  {
    if xs == [] then [x]
    else if x.0 <= xs[0].0 then [x] + xs
    else [xs[0]] + InsertByNumber(x, xs[1..])
  }

  function SortByNumber(xs: Entries): Entries
  {
    if xs == [] then [] else InsertByNumber(xs[0], SortByNumber(xs[1..]))
  }

  function ConcatBodies(xs: Entries): Bytes
  {
    if xs == [] then [] else xs[0].1 + ConcatBodies(xs[1..])
  }

  /** `xs` lists the parts, each once, in whatever order the concurrent map yields them. */
  ghost predicate Lists(xs: Entries, parts: PartMap)
  {
    && (forall i, j :: 0 <= i < j < |xs| ==> xs[i].0 != xs[j].0)
    && (forall x :: x in xs ==> x.0 in parts && parts[x.0] == x.1)
    && (forall n :: n in parts ==> (n, parts[n]) in xs)
  }

  lemma {:induction false} InsertKeepsOrder(x: (i8, Bytes), xs: Entries)
    requires Ascending(xs) && forall y :: y in xs ==> y.0 != x.0
    ensures Ascending(InsertByNumber(x, xs))
    ensures forall y :: y in InsertByNumber(x, xs) <==> y == x || y in xs
  {
    if xs == [] || x.0 <= xs[0].0 {
    } else {
      InsertKeepsOrder(x, xs[1..]);
      var rest := InsertByNumber(x, xs[1..]);
      forall y | y in rest ensures xs[0].0 < y.0 {
      }
      assert xs == [xs[0]] + xs[1..];
    }
  }

  lemma {:induction false} SortOrders(xs: Entries)
    requires forall i, j :: 0 <= i < j < |xs| ==> xs[i].0 != xs[j].0
    ensures Ascending(SortByNumber(xs))
    ensures forall y :: y in SortByNumber(xs) <==> y in xs
  {
    if xs == [] {
    } else {
      SortOrders(xs[1..]);
      InsertKeepsOrder(xs[0], SortByNumber(xs[1..]));
      assert xs == [xs[0]] + xs[1..];
    }
  }

  /** `xs` lists, in ascending order, exactly the parts numbered `from` and above. */
  ghost predicate ListsFrom(xs: Entries, parts: PartMap, from: int)
  {
    && Ascending(xs)
    && (forall i :: 0 <= i < |xs| ==> from <= xs[i].0 as int && xs[i].0 in parts && parts[xs[i].0] == xs[i].1)
    && (forall n: i8 :: n in parts && from <= n as int ==> exists i :: 0 <= i < |xs| && xs[i].0 == n)
  }

  /** A number that is not present is passed over. */
  lemma ListsFromAbsent(xs: Entries, parts: PartMap, from: int)
    requires -128 <= from <= 127 && ListsFrom(xs, parts, from) && from as i8 !in parts
    ensures ListsFrom(xs, parts, from + 1)
  {
  }

  /** A number that is present is first in the list. */
  lemma ListsFromPresent(xs: Entries, parts: PartMap, from: int)
    requires -128 <= from <= 127 && ListsFrom(xs, parts, from) && from as i8 in parts
    ensures xs != [] && xs[0] == (from as i8, parts[from as i8])
    ensures ListsFrom(xs[1..], parts, from + 1)
  {
    var i :| 0 <= i < |xs| && xs[i].0 == from as i8;
    assert from <= xs[0].0 as int;
    assert i == 0;
    forall n: i8 | n in parts && from + 1 <= n as int ensures exists k :: 0 <= k < |xs[1..]| && xs[1..][k].0 == n {
      var k :| 0 <= k < |xs| && xs[k].0 == n;
      assert xs[1..][k - 1].0 == n;
    }
  }

  lemma {:induction false} ConcatAscending(xs: Entries, parts: PartMap, from: int)
    requires -128 <= from <= 128 && ListsFrom(xs, parts, from)
    ensures ConcatBodies(xs) == Assemble(parts, from)
    decreases 128 - from
  {
    if from == 128 {
      if xs != [] {
        StartsBelowTheEnd(xs, parts, from);
      }
    } else if from as i8 in parts {
      var rest := PresentFirst(xs, parts, from);
      ConcatAscending(rest, parts, from + 1);
      AssembleNext(parts, from);
    } else {
      ListsFromAbsent(xs, parts, from);
      ConcatAscending(xs, parts, from + 1);
      AssembleNext(parts, from);
    }
  }

  lemma PresentFirst(xs: Entries, parts: PartMap, from: int) returns (rest: Entries)
    requires -128 <= from <= 127 && ListsFrom(xs, parts, from) && from as i8 in parts
    ensures ListsFrom(rest, parts, from + 1)
    ensures ConcatBodies(xs) == parts[from as i8] + ConcatBodies(rest)
  {
    ListsFromPresent(xs, parts, from);
    rest := xs[1..];
  }

  lemma AssembleNext(parts: PartMap, from: int)
    requires -128 <= from <= 127
    ensures Assemble(parts, from) ==
            if from as i8 in parts then parts[from as i8] + Assemble(parts, from + 1) else Assemble(parts, from + 1)
  {
  }

  lemma StartsBelowTheEnd(xs: Entries, parts: PartMap, from: int)
    requires ListsFrom(xs, parts, from) && xs != []
    ensures from <= 127
  {
    assert from <= xs[0].0 as int;
  }

  /** However the parts are enumerated, sorting and gluing them gives the same body. */
  lemma {:induction false} EnumerationDoesNotMatter(xs: Entries, parts: PartMap)
    requires Lists(xs, parts)
    ensures ConcatBodies(SortByNumber(xs)) == AssembledBody(parts)
  {
    SortOrders(xs);
    var sorted := SortByNumber(xs);
    forall i | 0 <= i < |sorted| ensures sorted[i].0 in parts && parts[sorted[i].0] == sorted[i].1 {
      assert sorted[i] in sorted;
    }
    forall n: i8 | n in parts ensures exists i :: 0 <= i < |sorted| && sorted[i].0 == n {
      assert (n, parts[n]) in sorted;
    }
    ConcatAscending(SortByNumber(xs), parts, -128);
  }

  /** Drains the parts in an order of the map's choosing, sorts them and glues the bodies. */
  method CollectBody(parts: PartMap) returns (body: Bytes)
    ensures body == AssembledBody(parts)
  {
    var left := parts;
    var drained: Entries := [];
    while left.Keys != {}
      invariant left.Keys <= parts.Keys
      invariant forall n :: n in left ==> left[n] == parts[n]
      invariant forall x :: x in drained ==> x.0 in parts && x.0 !in left && parts[x.0] == x.1
      invariant forall n :: n in parts && n !in left ==> (n, parts[n]) in drained
      invariant forall i, j :: 0 <= i < j < |drained| ==> drained[i].0 != drained[j].0
      decreases left.Keys
    {
      var n :| n in left.Keys;
      assert forall i :: 0 <= i < |drained| ==> drained[i] in drained;
      drained := drained + [(n, left[n])];
      left := left - {n};
    }
    EnumerationDoesNotMatter(drained, parts);
    var sorted := SortByNumber(drained);
    body := [];
    var i := 0;
    while i < |sorted|
      invariant 0 <= i <= |sorted|
      invariant body + ConcatBodies(sorted[i..]) == ConcatBodies(sorted)
    {
      assert sorted[i..][1..] == sorted[i + 1..];
      body := body + sorted[i].1;
      i := i + 1;
    }
  }
}
