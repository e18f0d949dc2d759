/** The durable file store: two tables, a metadata cache and two counters.
    Every method is one call run to completion. */
module FileStore {
  import opened Tables
  import opened Keys
  import opened FileSpec

  datatype FileMeta = FileMeta(totalChunks: nat, totalBytes: nat, storedBytes: nat, receivedChunks: nat,
                               createdAtMs: nat)

  type ChunkTable = map<string, Bytes>

  ghost function DurableMeta(t: Transfer): FileMeta {
    FileMeta(t.totalChunks, t.totalBytes, StoredBytes(t), |t.chunks|, t.createdAt)
  }

  ghost function CachedMeta(t: Transfer): FileMeta {
    FileMeta(t.totalChunks, t.totalBytes, StoredBytes(t), |t.chunks|, t.cachedAt)
  }

  ghost function DurableOf(ts: Transfers): map<string, FileMeta> { map id | id in ts :: DurableMeta(ts[id]) }

  ghost function CacheOf(ts: Transfers): map<string, FileMeta> { map id | id in ts :: CachedMeta(ts[id]) }

  ghost predicate Owned(ts: Transfers, k: string) {
    exists id, i :: id in ts && i in ts[id].chunks && k == ChunkKey(id, i)
  }

  /** The chunk table holds exactly the chunks of the transfers. */
  ghost predicate ChunksMatch(table: ChunkTable, ts: Transfers) {
    && (forall id :: id in ts ==> ColonFree(id))
    && (forall id, i :: id in ts && i in ts[id].chunks ==>
          ChunkKey(id, i) in table && table[ChunkKey(id, i)] == ts[id].chunks[i])
    && (forall k :: k in table ==> Owned(ts, k))
  }

  /** A chunk key is in the table exactly when that transfer has that chunk. */
  lemma ChunkLookup(table: ChunkTable, ts: Transfers, id: string, i: nat)
    requires ChunksMatch(table, ts) && ColonFree(id)
    ensures ChunkKey(id, i) in table <==> id in ts && i in ts[id].chunks
    ensures ChunkKey(id, i) in table ==> table[ChunkKey(id, i)] == ts[id].chunks[i]
  {
    if ChunkKey(id, i) in table {
      assert Owned(ts, ChunkKey(id, i));
      var id', i' :| id' in ts && i' in ts[id'].chunks && ChunkKey(id, i) == ChunkKey(id', i');
      ChunkKeyInjective(id, i, id', i');
    }
  }

  lemma StoreMatches(table: ChunkTable, ts: Transfers, id: string, t: Transfer, i: nat, data: Bytes)
    requires ChunksMatch(table, ts) && ColonFree(id)
    requires if id in ts then t == ts[id] else t.chunks == map[]
    ensures ChunksMatch(table[ChunkKey(id, i) := data], ts[id := WithChunk(t, i, data)])
  {
    hide ChunkKey, ColonFree;
    var k0, ts' := ChunkKey(id, i), ts[id := WithChunk(t, i, data)];
    forall o, j | o in ts' && j in ts'[o].chunks
      ensures ChunkKey(o, j) in table[k0 := data] && table[k0 := data][ChunkKey(o, j)] == ts'[o].chunks[j]
    {
      StoredUnder(table, ts, id, t, i, data, o, j);
    }
    forall k | k in table[k0 := data] ensures Owned(ts', k) {
      if k != k0 { assert Owned(ts, k); }
      StillOwned(ts, id, t, i, data, k);
    }
    hide ChunksMatch;
  }

  lemma StoredUnder(table: ChunkTable, ts: Transfers, id: string, t: Transfer, i: nat, data: Bytes, o: string, j: nat)
    requires ChunksMatch(table, ts) && ColonFree(id)
    requires if id in ts then t == ts[id] else t.chunks == map[]
    requires var ts' := ts[id := WithChunk(t, i, data)]; o in ts' && j in ts'[o].chunks
    ensures var ts', table' := ts[id := WithChunk(t, i, data)], table[ChunkKey(id, i) := data];
            ChunkKey(o, j) in table' && table'[ChunkKey(o, j)] == ts'[o].chunks[j]
  {
    hide ChunkKey, ColonFree;
    ChunkKeyInjective(id, i, o, j);
  }

  lemma StillOwned(ts: Transfers, id: string, t: Transfer, i: nat, data: Bytes, k: string)
    requires if id in ts then t == ts[id] else t.chunks == map[]
    requires k == ChunkKey(id, i) || Owned(ts, k)
    ensures Owned(ts[id := WithChunk(t, i, data)], k)
  {
    hide ChunkKey;
    var ts' := ts[id := WithChunk(t, i, data)];
    if k == ChunkKey(id, i) {
      assert id in ts' && i in ts'[id].chunks;
    } else {
      var o, j :| o in ts && j in ts[o].chunks && k == ChunkKey(o, j);
      assert o in ts' && j in ts'[o].chunks;
    }
  }

  /** The key range of a transfer selects exactly its chunks. */
  function RangeKeys(table: ChunkTable, id: string): set<string> {
    set k | k in table && InRange(k, RangeLow(id), RangeHigh(id))
  }

  lemma DeleteMatches(table: ChunkTable, ts: Transfers, id: string)
    requires ChunksMatch(table, ts) && ColonFree(id)
    ensures ChunksMatch(table - RangeKeys(table, id), ts - {id})
  {
    hide ChunkKey, ColonFree, InRange;
    var table', ts' := table - RangeKeys(table, id), ts - {id};
    forall o, j | o in ts' && j in ts'[o].chunks ensures ChunkKey(o, j) in table' {
      ChunkInRange(id, o, j);
    }
    forall k | k in table' ensures Owned(ts', k) {
      OwnedElsewhere(ts, id, k);
    }
  }

  lemma OwnedElsewhere(ts: Transfers, id: string, k: string)
    requires (forall o :: o in ts ==> ColonFree(o)) && ColonFree(id)
    requires Owned(ts, k) && !InRange(k, RangeLow(id), RangeHigh(id))
    ensures Owned(ts - {id}, k)
  {
    hide ChunkKey, ColonFree, InRange;
    var o, j :| o in ts && j in ts[o].chunks && k == ChunkKey(o, j);
    ChunkInRange(id, o, j);
    assert o in ts - {id} && j in (ts - {id})[o].chunks;
  }

  lemma ChunkInRange(id: string, other: string, i: nat)
    requires ColonFree(id) && ColonFree(other)
    ensures InRange(ChunkKey(other, i), RangeLow(id), RangeHigh(id)) <==> id == other
  {
    RangeSelectsOwnKeys(id, other, Decimal(i));
  }

  function Stored(m: FileMeta): nat { m.storedBytes }

  /** Weighing the metadata rows gives the transfers' total. */
  lemma {:induction false} MetaTotals(ts: Transfers)
    ensures Sum(DurableOf(ts), Stored) == TotalStored(ts) && |DurableOf(ts)| == |ts|
    decreases |ts|
  {
    if ts == map[] {
      assert DurableOf(ts) == map[];
    } else {
      var id :| id in ts;
      SumRemove(ts, StoredBytes, id);
      SumRemove(DurableOf(ts), Stored, id);
      RemoveMaps(ts, id);
      MetaTotals(ts - {id});
    }
  }

  /** Everything durable: a database the store can be opened on. */
  ghost predicate Durable(c: FileConfig, metaTable: map<string, FileMeta>, chunkTable: ChunkTable, ts: Transfers) {
    metaTable == DurableOf(ts) && ChunksMatch(chunkTable, ts) && AllWellFormed(c, ts)
  }

  /** Full scan on open: rebuild the cache, the stored-byte total and the count. */
  method ScanMeta(metaTable: map<string, FileMeta>)
    returns (meta: map<string, FileMeta>, reserved: nat, count: nat)
    ensures meta == metaTable && reserved == Sum(metaTable, Stored) && count == |metaTable|
  {
    meta, reserved, count := map[], 0, 0;
    var pending := metaTable.Keys;
    MinusNothing(metaTable);
    while pending != {}
      invariant pending <= metaTable.Keys && meta == metaTable - pending
      invariant reserved == Sum(meta, Stored) && count == |meta|
    {
      var k :| k in pending;
      var m := metaTable[k];
      SumUpdate(meta, Stored, k, m);
      SeeOne(metaTable, pending, k);
      reserved, count := reserved + m.storedBytes, count + 1;
      meta, pending := meta[k := m], pending - {k};
    }
  }

  // ---------------------------------------------------------------- the invariant

  /** Cache, counters and tables all describe the same transfers. */
  ghost predicate Consistent(c: FileConfig, metaTable: map<string, FileMeta>, chunkTable: ChunkTable,
                             meta: map<string, FileMeta>, reserved: nat, count: nat, ts: Transfers)
  {
    && Durable(c, metaTable, chunkTable, ts)
    && meta == CacheOf(ts)
    && reserved == TotalStored(ts)
    && count == |ts|
  }

  /** Between claim and write: the cache may hold a provisional entry for a transfer being created. */
  ghost predicate Claimed(c: FileConfig, metaTable: map<string, FileMeta>, chunkTable: ChunkTable,
                          meta: map<string, FileMeta>, reserved: nat, count: nat, ts: Transfers,
                          id: string, t: Transfer, creating: bool)
  {
    && Durable(c, metaTable, chunkTable, ts) && ColonFree(id) && WellFormed(c, t)
    && reserved == TotalStored(ts)
    && (creating <==> id !in ts)
    && if creating then
         && count == |ts| + 1 && t.chunks == map[]
         && meta == CacheOf(ts)[id := FileMeta(t.totalChunks, t.totalBytes, 0, 0, t.cachedAt)]
       else count == |ts| && t == ts[id] && meta == CacheOf(ts)
  }

  lemma ClaimNew(c: FileConfig, mt: map<string, FileMeta>, ct: ChunkTable, meta: map<string, FileMeta>, reserved: nat,
                 count: nat, ts: Transfers, id: string, t: Transfer)
    requires Consistent(c, mt, ct, meta, reserved, count, ts) && ColonFree(id) && id !in meta
    requires WellFormed(c, t) && t.chunks == map[]
    ensures id !in ts
    ensures Claimed(c, mt, ct, meta[id := FileMeta(t.totalChunks, t.totalBytes, 0, 0, t.cachedAt)], reserved,
                    count + 1, ts, id, t, true)
  {
  }

  lemma ClaimExisting(c: FileConfig, mt: map<string, FileMeta>, ct: ChunkTable, meta: map<string, FileMeta>,
                      reserved: nat,
                      count: nat, ts: Transfers, id: string)
    requires Consistent(c, mt, ct, meta, reserved, count, ts) && ColonFree(id) && id in meta
    ensures id in ts && meta[id].totalChunks == ts[id].totalChunks && meta[id].totalBytes == ts[id].totalBytes
    ensures Claimed(c, mt, ct, meta, reserved, count, ts, id, ts[id], false)
  {
  }

  /** A claim given back leaves the store as it was. */
  lemma Unclaim(c: FileConfig, mt: map<string, FileMeta>, ct: ChunkTable, meta: map<string, FileMeta>, reserved: nat,
                count: nat, ts: Transfers, id: string, t: Transfer, creating: bool)
    requires Claimed(c, mt, ct, meta, reserved, count, ts, id, t, creating)
    ensures creating ==> 1 <= count && Consistent(c, mt, ct, meta - {id}, reserved, count - 1, ts)
    ensures !creating ==> Consistent(c, mt, ct, meta, reserved, count, ts)
  {
    if creating { assert meta - {id} == CacheOf(ts); }
  }

  lemma CacheCount(c: FileConfig, mt: map<string, FileMeta>, ct: ChunkTable, meta: map<string, FileMeta>, reserved: nat,
                   count: nat, ts: Transfers)
    requires Consistent(c, mt, ct, meta, reserved, count, ts)
    ensures meta.Keys == mt.Keys == ts.Keys && count == |ts| && reserved == TotalStored(ts)
    ensures forall id :: id in ts ==> meta[id] == CachedMeta(ts[id]) && mt[id] == DurableMeta(ts[id])
    ensures ChunksMatch(ct, ts)
  {
  }

  /** What the write transaction reads: the durable metadata and the bytes about to be replaced. */
  lemma WriteReads(c: FileConfig, mt: map<string, FileMeta>, ct: ChunkTable, meta: map<string, FileMeta>, reserved: nat,
                   count: nat, ts: Transfers, id: string, t: Transfer, creating: bool, index: nat)
    requires Claimed(c, mt, ct, meta, reserved, count, ts, id, t, creating)
    ensures !creating ==> id in mt && mt[id] == DurableMeta(t)
    ensures creating ==> DurableMeta(t) == FileMeta(t.totalChunks, t.totalBytes, 0, 0, t.createdAt)
    ensures (if ChunkKey(id, index) in ct then |ct[ChunkKey(id, index)]| else 0) == PrevLen(t, index)
    ensures PrevLen(t, index) == 0 <==> index !in t.chunks
    ensures reserved == TotalStored(ts) && (!creating ==> StoredBytes(t) <= reserved)
    ensures id in meta && meta[id].totalChunks == t.totalChunks && meta[id].totalBytes == t.totalBytes
    ensures meta[id].createdAtMs == t.cachedAt && meta[id].receivedChunks <= |t.chunks|
  {
    ChunkLookup(ct, ts, id, index);
    if creating { EmptyStored(t); } else { SumRemove(ts, StoredBytes, id); }
  }

  /** Advance the cached entry to what reached disk, never back, keeping its creation time. */
  function Mirror(e: FileMeta, row: FileMeta): FileMeta {
    if row.receivedChunks >= e.receivedChunks
    then e.(storedBytes := row.storedBytes, receivedChunks := row.receivedChunks)
    else e
  }

  lemma CommitDurable(c: FileConfig, mt: map<string, FileMeta>, ct: ChunkTable, ts: Transfers,
                      id: string, t: Transfer, index: nat, data: Bytes)
    requires Durable(c, mt, ct, ts) && ColonFree(id) && WellFormed(c, t)
    requires if id in ts then t == ts[id] else t.chunks == map[]
    requires data != [] && index < t.totalChunks && StoredBytes(WithChunk(t, index, data)) <= t.totalBytes
    ensures var t' := WithChunk(t, index, data);
            Durable(c, mt[id := DurableMeta(t')], ct[ChunkKey(id, index) := data], ts[id := t'])
  {
    StoreMatches(ct, ts, id, t, index, data);
    CommitMaps(ts, id, WithChunk(t, index, data));
    CommitWellFormed(c, ts, id, t, index, data);
    hide ChunksMatch, DurableOf, DurableMeta, AllWellFormed, StoredBytes, WithChunk, ChunkKey, ColonFree;
  }

  lemma CommitWellFormed(c: FileConfig, ts: Transfers, id: string, t: Transfer, index: nat, data: Bytes)
    requires AllWellFormed(c, ts) && WellFormed(c, t)
    requires data != [] && index < t.totalChunks && StoredBytes(WithChunk(t, index, data)) <= t.totalBytes
    ensures AllWellFormed(c, ts[id := WithChunk(t, index, data)])
  {
  }

  lemma CommitCounts(ts: Transfers, id: string, t: Transfer, index: nat, data: Bytes)
    requires if id in ts then t == ts[id] else t.chunks == map[]
    ensures PrevLen(t, index) <= TotalStored(ts) + |data|
    ensures TotalStored(ts[id := WithChunk(t, index, data)]) == TotalStored(ts) + |data| - PrevLen(t, index)
    ensures |ts[id := WithChunk(t, index, data)]| == if id in ts then |ts| else |ts| + 1
  {
    hide Sum;
    ReplaceBytes(t, index, data);
    SumUpdate(ts, StoredBytes, id, WithChunk(t, index, data));
    if id !in ts { EmptyStored(t); }
    PutOne(ts, id, WithChunk(t, index, data));
  }

  /** The state after the commit and the cache update. */
  lemma CommitResult(c: FileConfig, mt: map<string, FileMeta>, ct: ChunkTable, meta: map<string, FileMeta>,
                     reserved: nat,
                     count: nat, ts: Transfers, id: string, t: Transfer, creating: bool, index: nat, data: Bytes)
    requires Claimed(c, mt, ct, meta, reserved, count, ts, id, t, creating)
    requires data != [] && index < t.totalChunks && StoredBytes(WithChunk(t, index, data)) <= t.totalBytes
    ensures var t' := WithChunk(t, index, data);
            && id in meta
            && Consistent(c, mt[id := DurableMeta(t')], ct[ChunkKey(id, index) := data],
                          meta[id := Mirror(meta[id], DurableMeta(t'))],
                          SatSub(reserved + SatSub(|data|, PrevLen(t, index)), SatSub(PrevLen(t, index), |data|)),
                          count, ts[id := t'])
  {
    hide Durable, Mirror, DurableOf, CacheOf, TotalStored, StoredBytes, ChunkKey, ColonFree, WithChunk, PrevLen;
    var t' := WithChunk(t, index, data);
    CommitDurable(c, mt, ct, ts, id, t, index, data);
    CommitCounts(ts, id, t, index, data);
    CommitMaps(ts, id, t');
    ReplaceBytes(t, index, data);
    MirrorAgrees(ts, meta, id, t, creating, index, data);
  }

  /** The cache entry a commit leaves behind is the transfer's. */
  lemma MirrorAgrees(ts: Transfers, meta: map<string, FileMeta>, id: string, t: Transfer, creating: bool, index: nat,
                     data: Bytes)
    requires if creating then meta == CacheOf(ts)[id := FileMeta(t.totalChunks, t.totalBytes, 0, 0, t.cachedAt)]
             else id in ts && t == ts[id] && meta == CacheOf(ts)
    ensures var t' := WithChunk(t, index, data);
            id in meta && meta[id := Mirror(meta[id], DurableMeta(t'))] == CacheOf(ts)[id := CachedMeta(t')]
  {
    var t' := WithChunk(t, index, data);
    ReplaceBytes(t, index, data);
    if creating {
      PutTwice(CacheOf(ts), id, FileMeta(t.totalChunks, t.totalBytes, 0, 0, t.cachedAt), CachedMeta(t'));
    }
    hide StoredBytes;
  }

  lemma PutTwice(m: map<string, FileMeta>, id: string, v: FileMeta, w: FileMeta)
    ensures m[id := v][id := w] == m[id := w]
  {
  }

  lemma DeleteDurable(c: FileConfig, mt: map<string, FileMeta>, ct: ChunkTable, ts: Transfers, id: string)
    requires Durable(c, mt, ct, ts) && ColonFree(id)
    ensures Durable(c, mt - {id}, ct - RangeKeys(ct, id), ts - {id})
    ensures id in mt <==> id in ts
  {
    DeleteMatches(ct, ts, id);
    RemoveMaps(ts, id);
    hide ChunksMatch, ColonFree, RangeKeys;
  }

  lemma DeletePresent(c: FileConfig, mt: map<string, FileMeta>, ct: ChunkTable, meta: map<string, FileMeta>,
                      reserved: nat,
                      count: nat, ts: Transfers, id: string)
    requires Consistent(c, mt, ct, meta, reserved, count, ts) && ColonFree(id) && id in mt
    ensures id in ts && mt[id].storedBytes <= reserved && 1 <= count
    ensures Consistent(c, mt - {id}, ct - RangeKeys(ct, id), meta - {id}, reserved - mt[id].storedBytes, count - 1,
                       ts - {id})
  {
    DeleteDurable(c, mt, ct, ts, id);
    RemoveMaps(ts, id);
    SumRemove(ts, StoredBytes, id);
    assert mt[id].storedBytes == StoredBytes(ts[id]);
    hide Durable, DurableOf, CacheOf, ColonFree, RangeKeys, Sum;
  }

  lemma DeleteAbsent(c: FileConfig, mt: map<string, FileMeta>, ct: ChunkTable, meta: map<string, FileMeta>,
                     reserved: nat,
                     count: nat, ts: Transfers, id: string)
    requires Consistent(c, mt, ct, meta, reserved, count, ts) && ColonFree(id) && id !in mt
    ensures id !in ts && Consistent(c, mt - {id}, ct - RangeKeys(ct, id), meta, reserved, count, ts - {id})
  {
    DeleteDurable(c, mt, ct, ts, id);
    AbsentKey(ts, id);
    hide Durable, DurableOf, CacheOf, ColonFree, RangeKeys, Sum;
  }

  lemma AbsentKey(ts: Transfers, id: string)
    requires id !in ts
    ensures ts - {id} == ts
  {
  }

  /** The metadata row to write, the bytes to reserve before the commit, the bytes to free after it. */
  datatype Plan = Plan(row: FileMeta, add: nat, release: nat)

  /** Inside the transaction: check the declared and permitted sizes and the global byte cap. */
  method PlanWrite(c: FileConfig, chunkTable: ChunkTable, reserved: nat, id: string, index: nat, data: Bytes,
                   m: FileMeta,
                   ghost t: Transfer)
    returns (plan: Result<Plan, FileReject>)
    requires m == DurableMeta(t) && data != []
    requires (if ChunkKey(id, index) in chunkTable then |chunkTable[ChunkKey(id, index)]| else 0) == PrevLen(t, index)
    requires PrevLen(t, index) == 0 <==> index !in t.chunks
    ensures var t', prev := WithChunk(t, index, data), PrevLen(t, index);
            if StoredBytes(t') > t.totalBytes || StoredBytes(t') > c.maxFileBytes then plan == Err(BadRequest)
            else if |data| > prev && reserved + |data| - prev > c.maxTotalFileBytes then plan == Err(Full)
            else plan == Ok(Plan(DurableMeta(t'), SatSub(|data|, prev), SatSub(prev, |data|)))
  {
    ReplaceBytes(t, index, data);
    hide StoredBytes, ChunkKey, PrevLen;
    var key := ChunkKey(id, index);
    var prevLen := if key in chunkTable then |chunkTable[key]| else 0;
    var newStored := m.storedBytes - prevLen + |data|;
    if newStored > m.totalBytes || newStored > c.maxFileBytes {
      return Err(BadRequest);
    }
    var add, release := 0, 0;
    if |data| > prevLen {
      if reserved + (|data| - prevLen) > c.maxTotalFileBytes {
        return Err(Full);
      }
      add := |data| - prevLen;
    } else {
      release := prevLen - |data|;
    }
    var received := if prevLen == 0 then m.receivedChunks + 1 else m.receivedChunks;
    return Ok(Plan(m.(storedBytes := newStored, receivedChunks := received), add, release));
  }

  class FileStore {
    const config: FileConfig
    var metaTable: map<string, FileMeta>
    var chunkTable: ChunkTable
    var meta: map<string, FileMeta>
    var reservedBytes: nat
    var transferCount: nat
    ghost var transfers: Transfers

    ghost predicate Valid()
      reads this
    {
      Consistent(config, metaTable, chunkTable, meta, reservedBytes, transferCount, transfers)
    }

    ghost predicate HasClaim(id: string, t: Transfer, creating: bool)
      reads this
    {
      Claimed(config, metaTable, chunkTable, meta, reservedBytes, transferCount, transfers, id, t, creating)
    }

    /** Open on durable tables, as after a restart or a crash between two commits. */
    constructor (c: FileConfig, metaTable: map<string, FileMeta>, chunkTable: ChunkTable, ghost ts: Transfers)
      requires Durable(c, metaTable, chunkTable, ts)
      ensures Valid() && config == c && transfers == Reopened(ts)
      ensures this.metaTable == metaTable && this.chunkTable == chunkTable
    {
      var m, reserved, count := ScanMeta(metaTable);
      config, this.metaTable, this.chunkTable := c, metaTable, chunkTable;
      meta, reservedBytes, transferCount, transfers := m, reserved, count, Reopened(ts);
      new;
      MetaTotals(ts);
      ReopenedIsDurable(c, metaTable, chunkTable, ts);
    }

    method StoreChunk(id: string, index: nat, totalChunks: nat, totalBytes: nat, data: Bytes,
                      claimAt: nat, writeAt: nat, disk: Outcome)
      returns (r: Result<StoredChunk, FileReject>)
      requires Valid() && ColonFree(id) && claimAt <= writeAt
      modifies this
      ensures Valid()
      ensures (transfers, r) == StoreSpec(config, old(transfers), id, index, totalChunks, totalBytes, data, claimAt,
                                          writeAt, disk)
      ensures r.Ok? ==> id in transfers && r.value == StoredChunk(|transfers[id].chunks|, totalChunks)
    {
      hide Consistent, Claimed, WellFormed, WriteSpec, ColonFree;
      CacheCount(config, metaTable, chunkTable, meta, reservedBytes, transferCount, transfers);
      if data == [] || totalChunks == 0 || totalChunks > config.maxChunks || index >= totalChunks {
        return Err(BadRequest);
      }
      if totalBytes == 0 || totalBytes > config.maxFileBytes {
        return Err(TooLarge);
      }
      if id in meta {
        var m := meta[id];
        if m.totalChunks != totalChunks || m.totalBytes != totalBytes {
          return Err(BadRequest);
        }
        ClaimExisting(config, metaTable, chunkTable, meta, reservedBytes, transferCount, transfers, id);
        ghost var t := transfers[id];
        r := WriteChunk(id, index, totalChunks, totalBytes, data, false, writeAt, disk, t);
        if r.Err? {
          Unclaim(config, metaTable, chunkTable, meta, reservedBytes, transferCount, transfers, id, t, false);
        }
      } else if index != 0 {
        return Err(NotFound);
      } else {
        r := CreateTransfer(id, totalChunks, totalBytes, data, claimAt, writeAt, disk);
      }
    }

    /** The creating path: claim the id, reserve a slot, write, and give both back on failure. */
    method CreateTransfer(id: string, totalChunks: nat, totalBytes: nat, data: Bytes,
                          claimAt: nat, writeAt: nat, disk: Outcome)
      returns (r: Result<StoredChunk, FileReject>)
      requires Valid() && ColonFree(id) && claimAt <= writeAt && id !in meta && data != []
      requires 1 <= totalChunks <= config.maxChunks && 1 <= totalBytes <= config.maxFileBytes
      modifies this
      ensures Valid()
      ensures (transfers, r) ==
        if |old(transfers)| >= config.maxTransfers then (old(transfers), Err(Full))
        else WriteSpec(config, old(transfers), id, Transfer(totalChunks, totalBytes, claimAt, writeAt, map[]), 0,
                       data, disk)
      ensures r.Ok? ==> id in transfers && r.value == StoredChunk(|transfers[id].chunks|, totalChunks)
    {
      hide Consistent, Claimed, WellFormed, WriteSpec, ColonFree;
      CacheCount(config, metaTable, chunkTable, meta, reservedBytes, transferCount, transfers);
      ghost var t := Transfer(totalChunks, totalBytes, claimAt, writeAt, map[]);
      FreshIsWellFormed(config, totalChunks, totalBytes, claimAt, writeAt);
      ClaimNew(config, metaTable, chunkTable, meta, reservedBytes, transferCount, transfers, id, t);
      PutBack(meta, id, FileMeta(totalChunks, totalBytes, 0, 0, claimAt));
      meta := meta[id := FileMeta(totalChunks, totalBytes, 0, 0, claimAt)];
      if transferCount >= config.maxTransfers {
        meta := meta - {id};
        return Err(Full);
      }
      transferCount := transferCount + 1;
      r := WriteChunk(id, 0, totalChunks, totalBytes, data, true, writeAt, disk, t);
      if r.Err? {
        Unclaim(config, metaTable, chunkTable, meta, reservedBytes, transferCount, transfers, id, t, true);
        transferCount := transferCount - 1;
        meta := meta - {id};
      }
    }

    /** The durable half: one transaction over both tables, then the counters and the cache.
        On any failure everything is as before the call. */
    method WriteChunk(id: string, index: nat, totalChunks: nat, totalBytes: nat, data: Bytes, creating: bool,
                      writeAt: nat, disk: Outcome, ghost t: Transfer)
      returns (r: Result<StoredChunk, FileReject>)
      requires HasClaim(id, t, creating) && data != [] && index < totalChunks
      requires t.totalChunks == totalChunks && t.totalBytes == totalBytes && (creating ==> t.createdAt == writeAt)
      modifies this
      ensures (transfers, r) == WriteSpec(config, old(transfers), id, t, index, data, disk)
      ensures r.Ok? ==> id in transfers && r.value == StoredChunk(|transfers[id].chunks|, totalChunks)
      ensures r.Ok? ==> Valid()
      ensures r.Err? ==> HasClaim(id, t, creating)
    {
      hide Consistent, Claimed, StoredBytes, TotalStored, ChunkKey, PrevLen, ColonFree, Mirror, WithChunk;
      if disk.BeginFails? { return Err(Full); }
      WriteReads(config, metaTable, chunkTable, meta, reservedBytes, transferCount, transfers, id, t, creating, index);
      var m := if creating then FileMeta(totalChunks, totalBytes, 0, 0, writeAt) else metaTable[id];
      var plan := PlanWrite(config, chunkTable, reservedBytes, id, index, data, m, t);
      if plan.Err? {
        return Err(plan.error);
      }
      var Plan(m', add, release) := plan.value;
      reservedBytes := reservedBytes + add;
      if disk.CommitFails? {
        reservedBytes := SatSub(reservedBytes, add);
        return Err(Full);
      }
      CommitResult(config, metaTable, chunkTable, meta, old(reservedBytes), transferCount, transfers, id, t,
                   creating, index, data);
      var e := Mirror(meta[id], m');
      metaTable := metaTable[id := m'];
      chunkTable := chunkTable[ChunkKey(id, index) := data];
      transfers := transfers[id := WithChunk(t, index, data)];
      reservedBytes := SatSub(reservedBytes, release);
      meta := meta[id := e];
      r := Ok(StoredChunk(m'.receivedChunks, totalChunks));
    }

    method FetchChunk(id: string, index: nat) returns (r: Result<FetchedChunk, FileReject>)
      requires Valid() && ColonFree(id)
      ensures r == FetchSpec(transfers, id, index)
    {
      if id !in meta { return Err(NotFound); }
      var m := meta[id];
      if index >= m.totalChunks { return Err(BadRequest); }
      var key := ChunkKey(id, index);
      ChunkLookup(chunkTable, transfers, id, index);
      if key !in chunkTable { return Err(NotFound); }
      return Ok(FetchedChunk(chunkTable[key], m.totalChunks, m.totalBytes));
    }

    /** Delete a whole transfer, releasing exactly its bytes and its slot; a transaction that fails
        changes nothing. */
    method DeleteTransfer(id: string, fails: bool) returns (r: Result<bool, StoreFailed>)
      requires Valid() && ColonFree(id)
      modifies this
      ensures Valid()
      ensures if fails then r.Err? && transfers == old(transfers)
              else r == Ok(id in old(transfers)) && transfers == old(transfers) - {id}
    {
      hide Consistent, ColonFree;
      if fails { return Err(StoreFailed); }
      var existed := id in metaTable;
      if existed {
        DeletePresent(config, metaTable, chunkTable, meta, reservedBytes, transferCount, transfers, id);
      } else {
        DeleteAbsent(config, metaTable, chunkTable, meta, reservedBytes, transferCount, transfers, id);
      }
      var stored := if existed then metaTable[id].storedBytes else 0;
      metaTable := metaTable - {id};
      chunkTable := chunkTable - RangeKeys(chunkTable, id);
      if existed {
        meta := meta - {id};
        transferCount := transferCount - 1;
        reservedBytes := SatSub(reservedBytes, stored);
      }
      transfers := transfers - {id};
      r := Ok(existed);
    }

    /** Delete every transfer past its lifetime, as the cache tells it.  The first delete that fails ends
        the sweep; what it has deleted by then were expired transfers. */
    method SweepExpired(now: nat, failing: set<string>) returns (r: Result<nat, StoreFailed>)
      requires Valid()
      modifies this
      ensures Valid()
      ensures r.Ok? <==>
              forall id :: id in failing && id in old(transfers) ==> !Expired(config, old(transfers)[id], now)
      ensures r.Ok? ==> transfers == SweepSpec(config, old(transfers), now) && r.value == |old(transfers)| - |transfers|
      ensures forall id :: id in transfers ==> id in old(transfers) && transfers[id] == old(transfers)[id]
      ensures forall id :: id in SweepSpec(config, old(transfers), now) ==> id in transfers
      ensures forall id :: id in old(transfers) && now <= Due(config, old(transfers)[id]) ==> id in transfers
      ensures r.Ok? ==> forall id :: id in transfers ==> now <= Due(config, old(transfers)[id])
    {
      CacheCount(config, metaTable, chunkTable, meta, reservedBytes, transferCount, transfers);
      SweptWhenDue(config, transfers, now);
      var expired := FindExpired(config, meta, now, transfers);
      var removed, pending := 0, expired;
      ghost var ts := transfers;
      hide Consistent, ColonFree, Expired, SweepSpec, Due;
      MinusNothing(ts);
      AllMinusNothing(expired);
      while pending != {}
        invariant pending <= expired && Valid()
        invariant transfers == ts - (expired - pending)
        invariant removed + |pending| == |expired|
        invariant expired - pending !! failing
      {
        var id :| id in pending;
        var gone := DeleteTransfer(id, id in failing);
        if gone.Err? { return Err(gone.error); }
        DropNext(ts, expired, pending, id);
        if gone.value { removed := removed + 1; }
        pending := pending - {id};
      }
      SweptCount(ts, expired);
      r := Ok(removed);
    }
  }

  datatype StoreFailed = StoreFailed

  /** The sweep's snapshot of expired ids, taken from the cache. */
  method FindExpired(c: FileConfig, meta: map<string, FileMeta>, now: nat, ghost ts: Transfers)
    returns (expired: set<string>)
    requires meta.Keys == ts.Keys
    requires forall id :: id in ts ==> ColonFree(id) && meta[id] == CachedMeta(ts[id])
    ensures expired == set id | id in ts && Expired(c, ts[id], now)
    ensures ts - expired == SweepSpec(c, ts, now)
    ensures forall id :: id in expired ==> id in ts && ColonFree(id)
  {
    var fullCutoff := SatSub(now, c.fileTtlMs);
    var incompleteCutoff := SatSub(now, Min(INCOMPLETE_FILE_TTL_MS, c.fileTtlMs));
    expired := set id | id in meta &&
      meta[id].createdAtMs < (if meta[id].receivedChunks >= meta[id].totalChunks then fullCutoff else incompleteCutoff);
  }

  lemma SweptWhenDue(c: FileConfig, ts: Transfers, now: nat)
    requires AllWellFormed(c, ts)
    ensures forall id :: id in SweepSpec(c, ts, now) <==> id in ts && now <= Due(c, ts[id])
  {
    forall id ensures id in SweepSpec(c, ts, now) <==> id in ts && now <= Due(c, ts[id]) {
      SweepLeaves(c, ts, now, id);
    }
  }

  lemma SweptCount(ts: Transfers, gone: set<string>)
    requires gone <= ts.Keys
    ensures |gone| == |ts| - |ts - gone|
  {
    assert ts.Keys == (ts - gone).Keys + gone;
    assert |ts| == |ts.Keys| && |ts - gone| == |(ts - gone).Keys|;
  }

  lemma CommitMaps(ts: Transfers, id: string, t: Transfer)
    ensures DurableOf(ts[id := t]) == DurableOf(ts)[id := DurableMeta(t)]
    ensures CacheOf(ts[id := t]) == CacheOf(ts)[id := CachedMeta(t)]
  {
  }

  lemma RemoveMaps(ts: Transfers, id: string)
    ensures DurableOf(ts - {id}) == DurableOf(ts) - {id}
    ensures CacheOf(ts - {id}) == CacheOf(ts) - {id}
  {
  }

  lemma {:induction false} ReopenedTotal(ts: Transfers)
    ensures TotalStored(Reopened(ts)) == TotalStored(ts) && |Reopened(ts)| == |ts|
    decreases |ts|
  {
    if ts == map[] {
      assert Reopened(ts) == map[];
    } else {
      var id :| id in ts;
      SumRemove(ts, StoredBytes, id);
      SumRemove(Reopened(ts), StoredBytes, id);
      assert Reopened(ts) - {id} == Reopened(ts - {id});
      ReopenedTotal(ts - {id});
    }
  }

  lemma ReopenedIsDurable(c: FileConfig, metaTable: map<string, FileMeta>, chunkTable: ChunkTable, ts: Transfers)
    requires Durable(c, metaTable, chunkTable, ts)
    ensures Durable(c, metaTable, chunkTable, Reopened(ts))
    ensures CacheOf(Reopened(ts)) == metaTable
    ensures TotalStored(Reopened(ts)) == TotalStored(ts) && |Reopened(ts)| == |ts|
  {
    ReopenedTotal(ts);
    ReopenedMatches(chunkTable, ts);
    ReopenedMeta(c, ts);
  }

  lemma ReopenedMatches(table: ChunkTable, ts: Transfers)
    requires ChunksMatch(table, ts)
    ensures ChunksMatch(table, Reopened(ts))
  {
    hide ChunkKey, ColonFree;
    forall k | k in table ensures Owned(Reopened(ts), k) {
      assert Owned(ts, k);
      var id, i :| id in ts && i in ts[id].chunks && k == ChunkKey(id, i);
      assert id in Reopened(ts) && i in Reopened(ts)[id].chunks;
    }
  }

  lemma ReopenedMeta(c: FileConfig, ts: Transfers)
    requires AllWellFormed(c, ts)
    ensures AllWellFormed(c, Reopened(ts))
    ensures DurableOf(Reopened(ts)) == DurableOf(ts) == CacheOf(Reopened(ts))
  {
    forall id | id in ts
      ensures WellFormed(c, Reopened(ts)[id]) && StoredBytes(Reopened(ts)[id]) == StoredBytes(ts[id])
    {
      assert WellFormed(c, ts[id]);
    }
  }
}
