/** The bounded open-file cache with second-chance eviction. */
module FileCache {
  import opened Wrappers
  import opened Bytes

  datatype Key = Key(chunkId: u64, generation: u64, seriesId: u64, relativePath: string)

  /** An open file handle; what it reads is fixed when it is opened. */
  datatype Handle = Handle(bytes: seq<byte>)

  datatype CachedFile = CachedFile(file: Handle, referenced: bool)

  datatype Cache = Cache(order: seq<Key>, files: map<Key, CachedFile>)

  const EMPTY := Cache([], map[])

  ghost predicate NoDuplicates<T>(order: seq<T>) {
    forall i, j :: 0 <= i < j < |order| ==> order[i] != order[j]
  }

  /** The queue without position `v`, the part before it moved to the back. */
  function Rotated<T>(order: seq<T>, v: nat): seq<T>
    requires v < |order|
  {
    order[v + 1..] + order[..v]
  }

  lemma RotatedAt<T>(order: seq<T>, v: nat, i: nat)
    requires v < |order| && i < |order| - 1
    ensures Rotated(order, v)[i] == if i < |order| - 1 - v then order[v + 1 + i] else order[i - (|order| - 1 - v)]
  {
  }

  lemma RotatedDistinct<T>(order: seq<T>, v: nat)
    requires NoDuplicates(order) && v < |order|
    ensures NoDuplicates(Rotated(order, v)) && |Rotated(order, v)| == |order| - 1
  {
    var r := Rotated(order, v);
    forall i, j | 0 <= i < j < |r|
      ensures r[i] != r[j]
    {
      RotatedAt(order, v, i);
      RotatedAt(order, v, j);
    }
  }

  lemma RotatedMembers<T>(order: seq<T>, v: nat, k: T)
    requires NoDuplicates(order) && v < |order|
    ensures k in Rotated(order, v) <==> k in order && k != order[v]
  {
    var r, n := Rotated(order, v), |order|;
    if k in r {
      var i :| 0 <= i < |r| && r[i] == k;
      RotatedAt(order, v, i);
    }
    if k in order && k != order[v] {
      var i :| 0 <= i < n && order[i] == k;
      RotatedAt(order, v, if i > v then i - v - 1 else i + (n - 1 - v));
    }
  }

  /** The queue lists each cached key exactly once. */
  ghost predicate Consistent(c: Cache) {
    && NoDuplicates(c.order)
    && (forall k :: k in c.order <==> k in c.files)
  }

  ghost predicate Bounded(c: Cache, capacity: nat) {
    Consistent(c) && |c.order| <= capacity
  }

  lemma {:induction false} DistinctCount<T>(order: seq<T>, keys: set<T>)
    requires NoDuplicates(order) && forall k :: k in order <==> k in keys
    ensures |order| == |keys|
  {
    if order == [] {
      assert keys == {};
    } else {
      var rest, others := order[1..], keys - {order[0]};
      forall k
        ensures k in rest <==> k in others
      {
        if k in rest {
          var i :| 0 <= i < |rest| && rest[i] == k;
          assert order[i + 1] == k;
        }
        if k in others {
          assert k in order;
        }
      }
      DistinctCount(rest, others);
    }
  }

  lemma QueueAndMapAgree(c: Cache)
    requires Consistent(c)
    ensures |c.order| == |c.files|
  {
    DistinctCount(c.order, c.files.Keys);
  }

  // What each critical section does to the cache

  function Touch(c: Cache, k: Key): Cache
    requires k in c.files
  {
    c.(files := c.files[k := c.files[k].(referenced := true)])
  }

  /** How many keys at the front of the queue have their bit set. */
  ghost function Passed(order: seq<Key>, files: map<Key, CachedFile>): (p: nat)
    requires forall k :: k in order ==> k in files
    ensures p <= |order|
    ensures forall i :: 0 <= i < p ==> files[order[i]].referenced
    ensures p < |order| ==> !files[order[p]].referenced
  {
    if order == [] || !files[order[0]].referenced then 0 else 1 + Passed(order[1..], files)
  }

  ghost function ClearBits(files: map<Key, CachedFile>, keys: seq<Key>): map<Key, CachedFile> {
    map k | k in files :: if k in keys then files[k].(referenced := false) else files[k]
  }

  /** The first unreferenced key in queue order, or the head when every key is referenced. */
  ghost function Victim(c: Cache): nat
    requires Consistent(c) && c.order != []
  {
    var p := Passed(c.order, c.files);
    if p < |c.order| then p else 0
  }

  /** Evicting rotates the passed-over keys to the back with their bits cleared. */
  ghost function Evict(c: Cache): Cache
    requires Consistent(c) && c.order != []
  {
    var p, v := Passed(c.order, c.files), Victim(c);
    Cache(Rotated(c.order, v), ClearBits(c.files, c.order[..p]) - {c.order[v]})
  }

  ghost function Insert(c: Cache, capacity: nat, k: Key, file: Handle): Cache
    requires Bounded(c, capacity) && capacity > 0
  {
    if k in c.files then Touch(c, k)
    else
      QueueAndMapAgree(c);
      var room := if |c.files| == capacity then Evict(c) else c;
      Cache(room.order + [k], room.files[k := CachedFile(file, false)])
  }

  ghost function Without(order: seq<Key>, k: Key): seq<Key> {
    if order == [] then [] else (if order[0] == k then [] else [order[0]]) + Without(order[1..], k)
  }

  ghost function Remove(c: Cache, k: Key): Cache {
    Cache(Without(c.order, k), c.files - {k})
  }

  // The invariant

  lemma {:induction false} EvictConsistent(c: Cache)
    requires Consistent(c) && c.order != []
    ensures Consistent(Evict(c))
    ensures |Evict(c).order| == |c.order| - 1
    ensures Evict(c).files.Keys == c.files.Keys - {c.order[Victim(c)]}
    ensures forall k :: k in Evict(c).files ==> Evict(c).files[k].file == c.files[k].file
  {
    var v := Victim(c);
    RotatedDistinct(c.order, v);
    forall k
      ensures k in Evict(c).order <==> k in Evict(c).files
    {
      RotatedMembers(c.order, v, k);
    }
  }

  lemma {:induction false} AppendKey(c: Cache, capacity: nat, k: Key, entry: CachedFile)
    requires Consistent(c) && k !in c.files && |c.order| < capacity
    ensures Bounded(Cache(c.order + [k], c.files[k := entry]), capacity)
  {
    var order := c.order + [k];
    assert k !in c.order;
    forall x
      ensures x in order <==> x in c.order || x == k
    {
    }
  }

  lemma {:induction false} InsertKeepsInvariant(c: Cache, capacity: nat, k: Key, file: Handle)
    requires Bounded(c, capacity) && capacity > 0
    ensures Bounded(Insert(c, capacity, k, file), capacity)
    ensures k in Insert(c, capacity, k, file).files
    ensures forall x :: x in Insert(c, capacity, k, file).files ==>
              Insert(c, capacity, k, file).files[x].file == if x in c.files then c.files[x].file else file
    ensures forall x :: x in Insert(c, capacity, k, file).files ==> x in c.files || x == k
  {
    QueueAndMapAgree(c);
    if k !in c.files {
      if |c.files| == capacity {
        EvictConsistent(c);
        AppendKey(Evict(c), capacity, k, CachedFile(file, false));
      } else {
        AppendKey(c, capacity, k, CachedFile(file, false));
      }
    }
  }

  lemma {:induction false} WithoutMembers(order: seq<Key>, k: Key)
    requires NoDuplicates(order)
    ensures NoDuplicates(Without(order, k)) && |Without(order, k)| <= |order|
    ensures forall x :: x in Without(order, k) <==> x in order && x != k
  {
    if order != [] {
      var rest := order[1..];
      assert forall i :: 0 <= i < |rest| ==> rest[i] == order[i + 1];
      WithoutMembers(rest, k);
      assert order[0] !in rest;
      var kept := Without(rest, k);
      assert order[0] !in kept && NoDuplicates(kept);
      assert Without(order, k) == (if order[0] == k then kept else [order[0]] + kept);
      assert forall x :: x in order <==> x == order[0] || x in rest;
    }
  }

  lemma {:induction false} RemoveKeepsInvariant(c: Cache, capacity: nat, k: Key)
    requires Bounded(c, capacity)
    ensures Bounded(Remove(c, k), capacity)
  {
    WithoutMembers(c.order, k);
  }

  /**
   * The victim is the first unreferenced key; the keys before it move to the back with their bits
   * cleared, and every other bit stays. If all are referenced the head goes and all bits are clear.
   */
  lemma {:induction false} EvictExactly(c: Cache, v: nat)
    requires Consistent(c) && v < |c.order|
    requires forall i :: 0 <= i < v ==> c.files[c.order[i]].referenced
    ensures !c.files[c.order[v]].referenced ==>
              && Evict(c).order == c.order[v + 1..] + c.order[..v]
              && Evict(c).files.Keys == c.files.Keys - {c.order[v]}
              && forall k :: k in Evict(c).files ==>
                   Evict(c).files[k].referenced == (c.files[k].referenced && k !in c.order[..v])
    ensures v == |c.order| - 1 && c.files[c.order[v]].referenced ==>
              && Evict(c).order == c.order[1..]
              && Evict(c).files.Keys == c.files.Keys - {c.order[0]}
              && forall k :: k in Evict(c).files ==> !Evict(c).files[k].referenced
  {
    EvictConsistent(c);
    assert c.order[v] in c.order;
    if !c.files[c.order[v]].referenced {
      assert Passed(c.order, c.files) == v;
    } else if v == |c.order| - 1 {
      assert Passed(c.order, c.files) == |c.order|;
      assert c.order[..|c.order|] == c.order;
      assert Rotated(c.order, 0) == c.order[1..];
    }
  }

  /** A known key is only marked; a new one joins the back unmarked, and nothing goes while there is room. */
  lemma {:induction false} InsertExactly(c: Cache, capacity: nat, k: Key, file: Handle)
    requires Bounded(c, capacity) && capacity > 0
    ensures k in c.files ==>
              Insert(c, capacity, k, file) == Cache(c.order, c.files[k := CachedFile(c.files[k].file, true)])
    ensures k !in c.files ==>
              var after := Insert(c, capacity, k, file);
              && after.order != [] && after.order[|after.order| - 1] == k && k in after.files
              && after.files[k] == CachedFile(file, false)
              && (|c.order| < capacity ==> after == Cache(c.order + [k], c.files[k := CachedFile(file, false)]))
              && (|c.order| == capacity ==> |after.order| == capacity)
  {
    QueueAndMapAgree(c);
    if k !in c.files && |c.order| == capacity {
      EvictConsistent(c);
    }
  }

  /** Invalidating removes the key and nothing else; the other keys keep entry and order. */
  lemma {:induction false} RemoveExactly(c: Cache, k: Key)
    requires Consistent(c)
    ensures k !in Remove(c, k).files && k !in Remove(c, k).order
    ensures forall x :: x != k ==>
              && (x in Remove(c, k).files <==> x in c.files) && (x in Remove(c, k).order <==> x in c.order)
              && (x in c.files ==> Remove(c, k).files[x] == c.files[x])
    ensures k !in c.order ==> Remove(c, k) == c
  {
    WithoutMembers(c.order, k);
    if k !in c.order {
      WithoutNothing(c.order, k);
      assert c.files - {k} == c.files;
    }
  }

  lemma {:induction false} WithoutNothing(order: seq<Key>, k: Key)
    requires k !in order
    ensures Without(order, k) == order
  {
    if order != [] {
      WithoutNothing(order[1..], k);
    }
  }

  /** A referenced entry survives an eviction as long as some entry is unreferenced. */
  lemma {:induction false} HitGrantsSecondChance(c: Cache, hot: Key, cold: Key)
    requires Consistent(c) && hot in c.order && cold in c.order
    requires c.files[hot].referenced && !c.files[cold].referenced
    ensures hot in Evict(c).files
  {
    EvictConsistent(c);
    var i :| 0 <= i < |c.order| && c.order[i] == cold;
    assert Passed(c.order, c.files) <= i;
  }

  /**
   * A hit saves its key from the next eviction: with the bit of `hot` set and another key unreferenced,
   * inserting a new key into a full cache keeps `hot`.
   */
  lemma {:induction false} HitSurvivesInsertion(
      c: Cache, hit: Cache, capacity: nat, hot: Key, cold: Key, k: Key, file: Handle)
    requires Bounded(c, capacity) && capacity > 0 && |c.order| == capacity
    requires hot in c.files && cold in c.files && hot != cold && !c.files[cold].referenced && k !in c.files
    requires hit.order == c.order && hit.files == c.files[hot := CachedFile(c.files[hot].file, true)]
    ensures Bounded(hit, capacity) && hot in Insert(hit, capacity, k, file).files
  {
    assert Bounded(hit, capacity);
    QueueAndMapAgree(hit);
    HitGrantsSecondChance(hit, hot, cold);
  }

  lemma ClearNothing(table: map<Key, CachedFile>)
    ensures ClearBits(table, []) == table
  {
  }

  /** The queue after `pops` keys were passed over. */
  function Lap<T>(queue: seq<T>, pops: nat): seq<T>
    requires pops <= |queue|
  {
    queue[pops..] + queue[..pops]
  }

  lemma LapStep<T>(queue: seq<T>, pops: nat)
    requires pops <= |queue| && queue != []
    ensures var at := if pops < |queue| then pops else 0;
            Lap(queue, pops)[0] == queue[at] && Lap(queue, pops)[1..] == Rotated(queue, at)
    ensures pops < |queue| ==> Lap(queue, pops)[1..] + [queue[pops]] == Lap(queue, pops + 1)
  {
  }

  lemma {:induction false} BitAfterLap(queue: seq<Key>, table: map<Key, CachedFile>, pops: nat)
    requires Consistent(Cache(queue, table)) && queue != []
    requires pops <= Passed(queue, table)
    ensures var k := queue[if pops < |queue| then pops else 0];
            k in table && (ClearBits(table, queue[..pops])[k].referenced <==> pops < Passed(queue, table))
  {
    var k := queue[if pops < |queue| then pops else 0];
    assert k in queue;
    if pops < |queue| {
      assert k !in queue[..pops];
    } else {
      assert queue[..pops][0] == k;
    }
  }

  lemma {:induction false} ClearOneMore(queue: seq<Key>, table: map<Key, CachedFile>, pops: nat)
    requires pops < |queue| && queue[pops] in table
    ensures var k, files := queue[pops], ClearBits(table, queue[..pops]);
            files[k := files[k].(referenced := false)] == ClearBits(table, queue[..pops + 1])
  {
    assert queue[..pops + 1] == queue[..pops] + [queue[pops]];
  }

  lemma {:induction false} EvictDone(queue: seq<Key>, table: map<Key, CachedFile>, pops: nat)
    requires Consistent(Cache(queue, table)) && queue != []
    requires pops == Passed(queue, table)
    ensures var k := queue[if pops < |queue| then pops else 0];
            var files := ClearBits(table, queue[..pops]);
            k in files &&
            Evict(Cache(queue, table)) == Cache(Lap(queue, pops)[1..], files[k := files[k].(referenced := false)] - {k})
  {
    LapStep(queue, pops);
    BitAfterLap(queue, table, pops);
    var k := queue[if pops < |queue| then pops else 0];
    var files := ClearBits(table, queue[..pops]);
    assert files[k := files[k].(referenced := false)] - {k} == files - {k};
  }

  /** `retain(|candidate| candidate != k)`. */
  method Retain(order: seq<Key>, k: Key) returns (kept: seq<Key>)
    ensures kept == Without(order, k)
  {
    kept := [];
    for i := 0 to |order|
      invariant kept + Without(order[i..], k) == Without(order, k)
    {
      WithoutStep(order, k, i, kept);
      if order[i] != k {
        kept := kept + [order[i]];
      }
    }
  }

  /** One turn of `retain`. */
  lemma {:induction false} WithoutStep(order: seq<Key>, k: Key, i: nat, kept: seq<Key>)
    requires i < |order|
    ensures kept + Without(order[i..], k) ==
              (if order[i] == k then kept else kept + [order[i]]) + Without(order[i + 1..], k)
  {
    assert order[i..][1..] == order[i + 1..];
    if order[i] != k {
      PlusAssociates(kept, [order[i]], Without(order[i + 1..], k));
    }
  }

  /** The class behind the `RwLock`; each method is one critical section. */
  class ChunkFileCache {
    const capacity: nat
    var order: seq<Key>
    var files: map<Key, CachedFile>

    ghost function State(): Cache
      reads this
    {
      Cache(order, files)
    }

    ghost predicate Valid()
      reads this
    {
      capacity > 0 && Bounded(State(), capacity)
    }

    constructor (capacity: nat)
      ensures Valid() && State() == EMPTY
      ensures this.capacity == if capacity < 1 then 1 else capacity
    {
      this.capacity := if capacity < 1 then 1 else capacity;
      order, files := [], map[];
    }

    /** The read-locked part of `open`: a hit only sets the entry's bit. */
    method Lookup(k: Key) returns (r: Option<Handle>)
      requires Valid()
      modifies this`files
      ensures Valid()
      ensures r.Some? <==> k in old(files)
      ensures r.Some? ==> r.value == old(files)[k].file && State() == Touch(old(State()), k)
      ensures r.Some? ==> files == old(files)[k := CachedFile(r.value, true)] && order == old(order)
      ensures r.None? ==> State() == old(State())
    {
      if k !in files {
        return None;
      }
      var entry := files[k];
      if !entry.referenced {
        files := files[k := entry.(referenced := true)];
      }
      return Some(entry.file);
    }

    /** The write-locked part of `open`, with the file opened meanwhile. */
    method Publish(k: Key, file: Handle) returns (reader: Handle)
      requires Valid()
      modifies this
      ensures Valid()
      ensures State() == Insert(old(State()), capacity, k, file)
      ensures reader == if k in old(files) then old(files)[k].file else file
    {
      InsertKeepsInvariant(State(), capacity, k, file);
      var hit := Lookup(k);
      if hit.Some? {
        return hit.value;
      }
      QueueAndMapAgree(State());
      if |files| == capacity {
        var pops := EvictOne();
      }
      order := order + [k];
      files := files[k := CachedFile(file, false)];
      return file;
    }

    /** One turn of the eviction loop: the head is passed over with its bit cleared, or evicted. */
    method PopFront(ghost queue: seq<Key>, ghost table: map<Key, CachedFile>, ghost pops: nat) returns (evicted: bool)
      requires Consistent(Cache(queue, table)) && queue != [] && pops <= Passed(queue, table)
      requires State() == Cache(Lap(queue, pops), ClearBits(table, queue[..pops]))
      modifies this
      ensures evicted ==> State() == Evict(Cache(queue, table))
      ensures !evicted ==> pops < Passed(queue, table)
      ensures !evicted ==> State() == Cache(Lap(queue, pops + 1), ClearBits(table, queue[..pops + 1]))
    {
      LapStep(queue, pops);
      BitAfterLap(queue, table, pops);
      var candidate := order[0];
      order := order[1..];
      var wasReferenced := files[candidate].referenced;
      files := files[candidate := files[candidate].(referenced := false)];
      if wasReferenced {
        order := order + [candidate];
        ClearOneMore(queue, table, pops);
        return false;
      }
      files := files - {candidate};
      EvictDone(queue, table, pops);
      return true;
    }

    /** The eviction loop: neither the `expect` nor the map lookup can fail, and it ends after at most one lap. */
    method EvictOne() returns (pops: nat)
      requires Valid() && order != []
      modifies this
      ensures Valid()
      ensures State() == Evict(old(State()))
      ensures pops <= old(|order|) + 1
    {
      EvictConsistent(State());
      ClearNothing(files);
      ghost var queue, table := order, files;
      var evicted := false;
      pops := 0;
      while !evicted
        invariant !evicted ==> pops <= Passed(queue, table)
        invariant evicted ==> pops <= |queue| + 1
        invariant State() ==
                    if evicted then Evict(Cache(queue, table))
                    else Cache(Lap(queue, pops), ClearBits(table, queue[..pops]))
        decreases !evicted, |queue| - pops
      {
        evicted := PopFront(queue, table, pops);
        pops := pops + 1;
      }
    }

    method Invalidate(k: Key)
      requires Valid()
      modifies this
      ensures Valid()
      ensures State() == Remove(old(State()), k)
    {
      RemoveKeepsInvariant(State(), capacity, k);
      files := files - {k};
      order := Retain(order, k);
    }

    method Clear()
      requires Valid()
      modifies this
      ensures Valid() && State() == EMPTY
    {
      order, files := [], map[];
    }
  }
}
