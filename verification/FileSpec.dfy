/** What the file store means: a set of transfers, each a growing map from chunk index to bytes. */
module FileSpec {
  import opened Tables

  const INCOMPLETE_FILE_TTL_MS: nat := 60 * 60 * 1000

  datatype FileConfig = FileConfig(maxFileBytes: nat, maxTotalFileBytes: nat, fileTtlMs: nat,
                                   maxTransfers: nat, maxChunks: nat)

  datatype FileReject = TooLarge | Full | BadRequest | NotFound

  /** How far the database lets a write get: the transaction or a table cannot be opened, or a row or the
      commit is refused. */
  datatype Outcome = Works | BeginFails | CommitFails

  datatype StoredChunk = StoredChunk(receivedChunks: nat, totalChunks: nat)

  datatype FetchedChunk = FetchedChunk(data: Bytes, totalChunks: nat, totalBytes: nat)

  /** `cachedAt` is the creation time the cache holds, `createdAt` the durable one. */
  datatype Transfer = Transfer(totalChunks: nat, totalBytes: nat, cachedAt: nat, createdAt: nat,
                               chunks: map<nat, Bytes>)

  type Transfers = map<string, Transfer>

  ghost function StoredBytes(t: Transfer): nat { Sum(t.chunks, Length) }

  ghost function TotalStored(ts: Transfers): nat { Sum(ts, StoredBytes) }

  function PrevLen(t: Transfer, index: nat): nat {
    if index in t.chunks then |t.chunks[index]| else 0
  }

  function WithChunk(t: Transfer, index: nat, data: Bytes): Transfer {
    t.(chunks := t.chunks[index := data])
  }

  /** Replacing a chunk trades its old bytes for the new ones; the subtraction cannot underflow. */
  lemma ReplaceBytes(t: Transfer, index: nat, data: Bytes)
    ensures PrevLen(t, index) <= StoredBytes(t)
    ensures StoredBytes(WithChunk(t, index, data)) == StoredBytes(t) - PrevLen(t, index) + |data|
    ensures |WithChunk(t, index, data).chunks| == |t.chunks| + (if index in t.chunks then 0 else 1)
  {
    SumUpdate(t.chunks, Length, index, data);
  }

  // ---------------------------------------------------------------- the operations

  /** The durable half of a store: `t` is the transfer as it stands, or a fresh one. */
  ghost function WriteSpec(c: FileConfig, ts: Transfers, id: string, t: Transfer, index: nat, data: Bytes,
                           disk: Outcome)
    : (Transfers, Result<StoredChunk, FileReject>)
  {
    var t' := WithChunk(t, index, data);
    if disk.BeginFails? then (ts, Err(Full))
    else if StoredBytes(t') > t.totalBytes || StoredBytes(t') > c.maxFileBytes then (ts, Err(BadRequest))
    else if |data| > PrevLen(t, index) && TotalStored(ts) + |data| - PrevLen(t, index) > c.maxTotalFileBytes
        then (ts, Err(Full))
    else if disk.CommitFails? then (ts, Err(Full))
    else (ts[id := t'], Ok(StoredChunk(|t'.chunks|, t.totalChunks)))
  }

  ghost function StoreSpec(c: FileConfig, ts: Transfers, id: string, index: nat, totalChunks: nat, totalBytes: nat,
                           data: Bytes, claimAt: nat, writeAt: nat, disk: Outcome)
    : (Transfers, Result<StoredChunk, FileReject>)
  {
    if data == [] || totalChunks == 0 || totalChunks > c.maxChunks || index >= totalChunks then (ts, Err(BadRequest))
    else if totalBytes == 0 || totalBytes > c.maxFileBytes then (ts, Err(TooLarge))
    else if id in ts then
      if ts[id].totalChunks != totalChunks || ts[id].totalBytes != totalBytes then (ts, Err(BadRequest))
      else WriteSpec(c, ts, id, ts[id], index, data, disk)
    else if index != 0 then (ts, Err(NotFound))
    else if |ts| >= c.maxTransfers then (ts, Err(Full))
    else WriteSpec(c, ts, id, Transfer(totalChunks, totalBytes, claimAt, writeAt, map[]), index, data, disk)
  }

  function FetchSpec(ts: Transfers, id: string, index: nat): Result<FetchedChunk, FileReject> {
    if id !in ts then Err(NotFound)
    else if index >= ts[id].totalChunks then Err(BadRequest)
    else if index in ts[id].chunks then Ok(FetchedChunk(ts[id].chunks[index], ts[id].totalChunks, ts[id].totalBytes))
    else Err(NotFound)
  }

  /** How long a transfer may live: incomplete ones much shorter than complete ones. */
  function Lifetime(c: FileConfig, t: Transfer): nat {
    if |t.chunks| >= t.totalChunks then c.fileTtlMs else Min(INCOMPLETE_FILE_TTL_MS, c.fileTtlMs)
  }

  /** Past its lifetime, counted from the cached creation time. */
  predicate Expired(c: FileConfig, t: Transfer, now: nat) {
    t.cachedAt + Lifetime(c, t) < now
  }

  function SweepSpec(c: FileConfig, ts: Transfers, now: nat): Transfers {
    map id | id in ts && !Expired(c, ts[id], now) :: ts[id]
  }

  /** A restart reads the durable creation times back into the cache. */
  function Reopened(ts: Transfers): Transfers {
    map id | id in ts :: ts[id].(cachedAt := ts[id].createdAt)
  }

  // ---------------------------------------------------------------- what every operation keeps

  ghost predicate WellFormed(c: FileConfig, t: Transfer) {
    && 1 <= t.totalChunks <= c.maxChunks
    && 1 <= t.totalBytes <= c.maxFileBytes
    && StoredBytes(t) <= t.totalBytes
    && t.cachedAt <= t.createdAt
    && (forall i :: i in t.chunks ==> i < t.totalChunks && t.chunks[i] != [])
  }

  ghost predicate AllWellFormed(c: FileConfig, ts: Transfers) {
    forall id :: id in ts ==> WellFormed(c, ts[id])
  }

  /** Stored, declared and permitted bytes stay ordered, the whole store stays under its byte cap
      (or under where it started), and a rejected upload changes nothing. */
  lemma WriteKeepsBounds(c: FileConfig, ts: Transfers, id: string, t: Transfer, index: nat, data: Bytes, disk: Outcome)
    requires WellFormed(c, t) && index < t.totalChunks && data != []
    requires if id in ts then t == ts[id] else t.chunks == map[]
    ensures var (ts', r) := WriteSpec(c, ts, id, t, index, data, disk);
            && TotalStored(ts') <= Max(TotalStored(ts), c.maxTotalFileBytes)
            && if r.Err? then ts' == ts else ts' == ts[id := WithChunk(t, index, data)] && WellFormed(c, ts'[id])
  {
    hide Sum;
    ReplaceBytes(t, index, data);
    SumUpdate(ts, StoredBytes, id, WithChunk(t, index, data));
    if id !in ts { EmptyStored(t); }
  }

  /** An accepted upload adds its chunk to the transfer, or to a fresh one; a rejected one adds nothing. */
  lemma StoreShape(c: FileConfig, ts: Transfers, id: string, index: nat, totalChunks: nat, totalBytes: nat,
                   data: Bytes, claimAt: nat, writeAt: nat, disk: Outcome)
    ensures var (ts', r) := StoreSpec(c, ts, id, index, totalChunks, totalBytes, data, claimAt, writeAt, disk);
            var t := if id in ts then ts[id] else Transfer(totalChunks, totalBytes, claimAt, writeAt, map[]);
            if r.Err? then ts' == ts
            else
              && ts' == ts[id := WithChunk(t, index, data)] && index < totalChunks
              && t.totalChunks == totalChunks && t.totalBytes == totalBytes
  {
    hide StoredBytes, TotalStored, WithChunk, PrevLen;
  }

  /** Exactly when an upload is accepted: its shape is possible and that of its transfer, only chunk 0 begins a
      transfer and only below the limit, the chunks then held fit the declared bytes, the store's total stays
      under its cap or does not grow, and the database obliges. */
  lemma AcceptedExactlyWhen(c: FileConfig, ts: Transfers, id: string, index: nat, totalChunks: nat, totalBytes: nat,
                            data: Bytes, claimAt: nat, writeAt: nat, disk: Outcome)
    requires AllWellFormed(c, ts)
    ensures var t := if id in ts then ts[id] else Transfer(totalChunks, totalBytes, claimAt, writeAt, map[]);
            var t' := t.(chunks := t.chunks[index := data]);
            StoreSpec(c, ts, id, index, totalChunks, totalBytes, data, claimAt, writeAt, disk).1.Ok? <==>
            && data != [] && index < totalChunks <= c.maxChunks && 1 <= totalBytes <= c.maxFileBytes
            && t.totalChunks == totalChunks && t.totalBytes == totalBytes
            && (id !in ts ==> index == 0 && |ts| < c.maxTransfers)
            && StoredBytes(t') <= totalBytes
            && TotalStored(ts[id := t']) <= Max(TotalStored(ts), c.maxTotalFileBytes)
            && disk.Works?
  {
    var t := if id in ts then ts[id] else Transfer(totalChunks, totalBytes, claimAt, writeAt, map[]);
    ReplaceBytes(t, index, data);
    SumUpdate(ts, StoredBytes, id, WithChunk(t, index, data));
    if id !in ts { EmptyStored(t); }
    hide StoredBytes, Sum;
  }

  /** A refused upload changes nothing and is told why: `TooLarge` about the declared bytes, `NotFound` about a
      transfer not begun, `Full` about slots, total bytes or the database, `BadRequest` about all else. */
  lemma RefusedAndWhy(c: FileConfig, ts: Transfers, id: string, index: nat, totalChunks: nat, totalBytes: nat,
                      data: Bytes, claimAt: nat, writeAt: nat, disk: Outcome)
    requires StoreSpec(c, ts, id, index, totalChunks, totalBytes, data, claimAt, writeAt, disk).1.Err?
    ensures var (ts', r) := StoreSpec(c, ts, id, index, totalChunks, totalBytes, data, claimAt, writeAt, disk);
            var possible := data != [] && index < totalChunks <= c.maxChunks;
            var sized := 1 <= totalBytes <= c.maxFileBytes;
            var t := if id in ts then ts[id] else Transfer(totalChunks, totalBytes, claimAt, writeAt, map[]);
            var agrees := t.totalChunks == totalChunks && t.totalBytes == totalBytes;
            var within := StoredBytes(t.(chunks := t.chunks[index := data])) <= totalBytes;
            && ts' == ts
            && (r.error == TooLarge <==> possible && !sized)
            && (r.error == NotFound <==> possible && sized && id !in ts && index != 0)
            && (r.error == Full <==> possible && sized && agrees && (id !in ts ==> index == 0)
                                     && ((id !in ts && |ts| >= c.maxTransfers) || disk.BeginFails? || within))
  {
    hide StoredBytes, TotalStored;
  }

  /** The reply to an accepted upload counts the chunks its transfer now holds and repeats the declared number;
      fetching the chunk returns it with the declared shape. */
  lemma ReplyTellsProgress(c: FileConfig, ts: Transfers, id: string, index: nat, totalChunks: nat, totalBytes: nat,
                           data: Bytes, claimAt: nat, writeAt: nat, disk: Outcome)
    requires StoreSpec(c, ts, id, index, totalChunks, totalBytes, data, claimAt, writeAt, disk).1.Ok?
    ensures var (ts', r) := StoreSpec(c, ts, id, index, totalChunks, totalBytes, data, claimAt, writeAt, disk);
            && id in ts' && r.value.receivedChunks == |ts'[id].chunks| && r.value.totalChunks == totalChunks
            && FetchSpec(ts', id, index) == Ok(FetchedChunk(data, totalChunks, totalBytes))
  {
    hide StoredBytes, TotalStored;
  }

  /** What a fetch answers, from complete and incomplete transfers alike. */
  lemma FetchExactly(c: FileConfig, ts: Transfers, id: string, index: nat)
    requires AllWellFormed(c, ts)
    ensures var r := FetchSpec(ts, id, index);
            && (r.Ok? <==> id in ts && index in ts[id].chunks)
            && (r.Ok? ==> r.value == FetchedChunk(ts[id].chunks[index], ts[id].totalChunks, ts[id].totalBytes))
            && (r == Err(BadRequest) <==> id in ts && index >= ts[id].totalChunks)
            && (r == Err(NotFound) <==> id in ts ==> index < ts[id].totalChunks && index !in ts[id].chunks)
  {
    assert id in ts ==> WellFormed(c, ts[id]);
  }

  function FirstN(n: nat): (r: set<nat>)
    ensures forall i :: i in r <==> 0 <= i < n
    ensures |r| == n
  {
    if n == 0 then {} else FirstN(n - 1) + {n - 1}
  }

  predicate Complete(t: Transfer) {
    forall i :: 0 <= i < t.totalChunks ==> i in t.chunks
  }

  /** Pigeonhole: a transfer has as many chunks as it declares when no index is missing. */
  lemma CountTellsComplete(t: Transfer)
    requires forall i :: i in t.chunks ==> i < t.totalChunks
    ensures |t.chunks| >= t.totalChunks <==> Complete(t)
    ensures |t.chunks| <= t.totalChunks
  {
    var all := FirstN(t.totalChunks);
    var held := t.chunks.Keys;
    assert |t.chunks| == |held| && held <= all && all == held + (all - held);
    if |held| >= |all| { assert |all - held| == 0; }
    if Complete(t) { assert held == all; }
  }

  /** The last moment of a transfer: a complete one has the file lifetime, one with a chunk missing an hour, or
      the file lifetime where that is shorter. */
  function Due(c: FileConfig, t: Transfer): nat {
    t.cachedAt + if Complete(t) then c.fileTtlMs else Min(60 * 60 * 1000, c.fileTtlMs)
  }

  /** Which transfers a sweep leaves. */
  lemma SweepLeaves(c: FileConfig, ts: Transfers, now: nat, id: string)
    requires AllWellFormed(c, ts)
    ensures var ts' := SweepSpec(c, ts, now);
            && (id in ts' <==> id in ts && now <= Due(c, ts[id]))
            && (id in ts' ==> ts'[id] == ts[id])
  {
    if id in ts {
      assert WellFormed(c, ts[id]);
      CountTellsComplete(ts[id]);
    }
  }

  lemma EmptyStored(t: Transfer)
    requires t.chunks == map[]
    ensures StoredBytes(t) == 0
  {
  }

  lemma StoreKeepsBounds(c: FileConfig, ts: Transfers, id: string, index: nat, totalChunks: nat, totalBytes: nat,
                         data: Bytes, claimAt: nat, writeAt: nat, disk: Outcome)
    requires AllWellFormed(c, ts) && claimAt <= writeAt
    ensures var (ts', r) := StoreSpec(c, ts, id, index, totalChunks, totalBytes, data, claimAt, writeAt, disk);
            && AllWellFormed(c, ts')
            && TotalStored(ts') <= Max(TotalStored(ts), c.maxTotalFileBytes)
            && |ts'| <= Max(|ts|, c.maxTransfers)
            && (r.Err? ==> ts' == ts)
            && ts' - {id} == ts - {id}
  {
    var t := if id in ts then ts[id] else Transfer(totalChunks, totalBytes, claimAt, writeAt, map[]);
    if id !in ts { EmptyStored(t); }
    hide WellFormed, TotalStored, StoredBytes;
    if 1 <= totalChunks <= c.maxChunks && index < totalChunks && 1 <= totalBytes <= c.maxFileBytes && data != []
       && t.totalChunks == totalChunks && t.totalBytes == totalBytes
    {
      FreshIsWellFormed(c, totalChunks, totalBytes, claimAt, writeAt);
      WriteKeepsBounds(c, ts, id, t, index, data, disk);
      PutOne(ts, id, WithChunk(t, index, data));
      hide WriteSpec;
    }
  }

  lemma FreshIsWellFormed(c: FileConfig, totalChunks: nat, totalBytes: nat, claimAt: nat, writeAt: nat)
    requires 1 <= totalChunks <= c.maxChunks && 1 <= totalBytes <= c.maxFileBytes && claimAt <= writeAt
    ensures WellFormed(c, Transfer(totalChunks, totalBytes, claimAt, writeAt, map[]))
  {
    EmptyStored(Transfer(totalChunks, totalBytes, claimAt, writeAt, map[]));
  }

  lemma PutOne(ts: Transfers, id: string, t: Transfer)
    ensures ts[id := t] - {id} == ts - {id}
    ensures |ts[id := t]| == if id in ts then |ts| else |ts| + 1
  {
    assert ts[id := t].Keys == ts.Keys + {id};
    assert |ts[id := t]| == |ts[id := t].Keys| && |ts| == |ts.Keys|;
  }

  /** Uploading the same chunk again changes neither the content, nor the counts, nor the totals. */
  lemma ReuploadIsIdempotent(c: FileConfig, ts: Transfers, id: string, index: nat, totalChunks: nat, totalBytes: nat,
                             data: Bytes, claimAt: nat, writeAt: nat, claimAt': nat, writeAt': nat)
    requires AllWellFormed(c, ts)
    requires StoreSpec(c, ts, id, index, totalChunks, totalBytes, data, claimAt, writeAt, Works).1.Ok?
    ensures var (ts1, r1) := StoreSpec(c, ts, id, index, totalChunks, totalBytes, data, claimAt, writeAt, Works);
            StoreSpec(c, ts1, id, index, totalChunks, totalBytes, data, claimAt', writeAt', Works) == (ts1, r1)
  {
    var (ts1, r1) := StoreSpec(c, ts, id, index, totalChunks, totalBytes, data, claimAt, writeAt, Works);
    var t1 := ts1[id];
    assert t1.chunks[index := data] == t1.chunks;
    assert WithChunk(t1, index, data) == t1;
    assert ts1[id := t1] == ts1;
  }
}
