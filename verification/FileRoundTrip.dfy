/** Uploading a file chunk by chunk and getting it back. */
module FileRoundTrip {
  import opened Tables
  import opened FileSpec

  /** One upload attempt: the chunk index, the two clock readings and what the database does. */
  datatype Upload = Upload(index: nat, claimAt: nat, writeAt: nat, disk: Outcome)

  function Concat(parts: seq<Bytes>): Bytes {
    if parts == [] then [] else parts[0] + Concat(parts[1..])
  }

  function PartsMap(parts: seq<Bytes>): map<nat, Bytes> { map i: nat | i < |parts| :: parts[i] }

  /** Every attempt sends its chunk of the same file, declared with `totalBytes` bytes. */
  ghost function Attempt(c: FileConfig, ts: Transfers, id: string, parts: seq<Bytes>, totalBytes: nat, u: Upload)
    : (Transfers, Result<StoredChunk, FileReject>)
  {
    var data := if u.index < |parts| then parts[u.index] else [];
    StoreSpec(c, ts, id, u.index, |parts|, totalBytes, data, u.claimAt, u.writeAt, u.disk)
  }

  ghost function AfterUploads(c: FileConfig, ts: Transfers, id: string, parts: seq<Bytes>, totalBytes: nat,
                              us: seq<Upload>): Transfers
  {
    if us == [] then ts else
      Attempt(c, AfterUploads(c, ts, id, parts, totalBytes, us[..|us| - 1]), id, parts, totalBytes, us[|us| - 1]).0
  }

  function Indices(us: seq<Upload>): set<nat> { set k | 0 <= k < |us| :: us[k].index }

  /** The indices whose upload was accepted at least once. */
  ghost function Accepted(c: FileConfig, ts: Transfers, id: string, parts: seq<Bytes>, totalBytes: nat,
                          us: seq<Upload>): set<nat>
  {
    if us == [] then {} else
      var before, u := us[..|us| - 1], us[|us| - 1];
      var r := Attempt(c, AfterUploads(c, ts, id, parts, totalBytes, before), id, parts, totalBytes, u).1;
      Accepted(c, ts, id, parts, totalBytes, before) + if r.Ok? then {u.index} else {}
  }

  /** A transfer holding exactly the chunks of the file at the given indices. */
  predicate Holds(t: Transfer, parts: seq<Bytes>, totalBytes: nat, indices: set<nat>) {
    && t.totalChunks == |parts| && t.totalBytes == totalBytes
    && t.chunks.Keys == indices
    && forall i :: i in t.chunks ==> i < |parts| && t.chunks[i] == parts[i]
  }

  /** After any uploads in any order, with repeats and rejections, the transfer holds exactly the
      accepted chunks, and no other transfer has changed. */
  lemma {:induction false} UploadsHold(c: FileConfig, ts: Transfers, id: string, parts: seq<Bytes>, totalBytes: nat,
                                       us: seq<Upload>)
    requires id !in ts
    ensures var ts' := AfterUploads(c, ts, id, parts, totalBytes, us);
            var accepted := Accepted(c, ts, id, parts, totalBytes, us);
            && ts' - {id} == ts
            && (id in ts' <==> accepted != {})
            && (id in ts' ==> Holds(ts'[id], parts, totalBytes, accepted))
  {
    if us == [] {
      assert ts - {id} == ts;
    } else {
      var before := us[..|us| - 1];
      UploadsHold(c, ts, id, parts, totalBytes, before);
      AttemptHolds(c, AfterUploads(c, ts, id, parts, totalBytes, before), id, parts, totalBytes, us[|us| - 1],
                   Accepted(c, ts, id, parts, totalBytes, before));
    }
  }

  lemma AttemptHolds(c: FileConfig, ts: Transfers, id: string, parts: seq<Bytes>, totalBytes: nat, u: Upload,
                     indices: set<nat>)
    requires if id in ts then Holds(ts[id], parts, totalBytes, indices) else indices == {}
    ensures var (ts', r) := Attempt(c, ts, id, parts, totalBytes, u);
            && ts' - {id} == ts - {id}
            && (r.Err? ==> ts' == ts)
            && (r.Ok? ==> id in ts' && Holds(ts'[id], parts, totalBytes, indices + {u.index}))
  {
    var data := if u.index < |parts| then parts[u.index] else [];
    var t := if id in ts then ts[id] else Transfer(|parts|, totalBytes, u.claimAt, u.writeAt, map[]);
    StoreShape(c, ts, id, u.index, |parts|, totalBytes, data, u.claimAt, u.writeAt, u.disk);
    PutOne(ts, id, WithChunk(t, u.index, data));
    hide StoreSpec, WithChunk, Holds;
    if Attempt(c, ts, id, parts, totalBytes, u).1.Ok? {
      NothingHeld(t, parts, totalBytes);
      HoldsOneMore(t, parts, totalBytes, u.index, indices);
    }
  }

  lemma NothingHeld(t: Transfer, parts: seq<Bytes>, totalBytes: nat)
    requires t.totalChunks == |parts| && t.totalBytes == totalBytes
    ensures t.chunks == map[] ==> Holds(t, parts, totalBytes, {})
  {
  }

  lemma HoldsOneMore(t: Transfer, parts: seq<Bytes>, totalBytes: nat, index: nat, indices: set<nat>)
    requires Holds(t, parts, totalBytes, indices) && index < |parts|
    ensures Holds(WithChunk(t, index, parts[index]), parts, totalBytes, indices + {index})
  {
  }

  /** Pigeonhole: as many stored chunks as declared means every index is stored. */
  lemma CompleteIffAllStored(t: Transfer, parts: seq<Bytes>, totalBytes: nat, indices: set<nat>)
    requires Holds(t, parts, totalBytes, indices)
    ensures |t.chunks| == t.totalChunks <==> FirstN(|parts|) <= indices
  {
    CountTellsComplete(t);
  }

  /** The reply to the last upload, if that was accepted, reads complete exactly when every chunk is stored. */
  lemma ReplyTellsCompletion(c: FileConfig, ts: Transfers, id: string, parts: seq<Bytes>, totalBytes: nat,
                             us: seq<Upload>)
    requires id !in ts && us != []
    ensures var n, ts' := |us| - 1, AfterUploads(c, ts, id, parts, totalBytes, us);
            var r := Attempt(c, AfterUploads(c, ts, id, parts, totalBytes, us[..n]), id, parts, totalBytes, us[n]).1;
            r.Ok? ==>
              && id in ts' && r.value.totalChunks == |parts| && r.value.receivedChunks == |ts'[id].chunks|
              && (r.value.receivedChunks == r.value.totalChunks <==>
                    forall i :: 0 <= i < |parts| ==> FetchSpec(ts', id, i).Ok?)
  {
    var n, ts' := |us| - 1, AfterUploads(c, ts, id, parts, totalBytes, us);
    var before, u := AfterUploads(c, ts, id, parts, totalBytes, us[..n]), us[n];
    UploadsHold(c, ts, id, parts, totalBytes, us);
    var accepted := Accepted(c, ts, id, parts, totalBytes, us);
    assert ts' == Attempt(c, before, id, parts, totalBytes, u).0;
    hide AfterUploads, Accepted;
    var data := if u.index < |parts| then parts[u.index] else [];
    if Attempt(c, before, id, parts, totalBytes, u).1.Ok? {
      ReplyTellsProgress(c, before, id, u.index, |parts|, totalBytes, data, u.claimAt, u.writeAt, u.disk);
      HeldAreFetched(ts', id, parts, totalBytes, accepted);
      hide StoreSpec, FetchSpec, Holds;
    }
  }

  lemma HeldAreFetched(ts: Transfers, id: string, parts: seq<Bytes>, totalBytes: nat, indices: set<nat>)
    requires id in ts && Holds(ts[id], parts, totalBytes, indices)
    ensures |ts[id].chunks| == |parts| <==> forall i :: 0 <= i < |parts| ==> FetchSpec(ts, id, i).Ok?
  {
    CountTellsComplete(ts[id]);
    assert forall i :: 0 <= i < |parts| ==> (FetchSpec(ts, id, i).Ok? <==> i in ts[id].chunks);
  }

  /** Fetching every chunk in order. */
  function FetchAll(ts: Transfers, id: string, n: nat): seq<Result<FetchedChunk, FileReject>> {
    seq(n, (i: nat) => FetchSpec(ts, id, i))
  }

  function Datas(fetched: seq<Result<FetchedChunk, FileReject>>): seq<Bytes> {
    seq(|fetched|, (i: nat) requires i < |fetched| => if fetched[i].Ok? then fetched[i].value.data else [])
  }

  /** The round trip: once as many chunks are stored as declared, fetching them all succeeds and
      yields the file; deleting the transfer gives back the store as it was without it. */
  lemma RoundTrip(c: FileConfig, ts: Transfers, id: string, parts: seq<Bytes>, totalBytes: nat, us: seq<Upload>)
    requires id !in ts
    ensures var ts' := AfterUploads(c, ts, id, parts, totalBytes, us);
            && ts' - {id} == ts
            && (id in ts' && |ts'[id].chunks| == |parts| ==>
                  && (forall i :: 0 <= i < |parts| ==>
                        FetchSpec(ts', id, i) == Ok(FetchedChunk(parts[i], |parts|, totalBytes)))
                  && Concat(Datas(FetchAll(ts', id, |parts|))) == Concat(parts))
  {
    UploadsHold(c, ts, id, parts, totalBytes, us);
    var ts' := AfterUploads(c, ts, id, parts, totalBytes, us);
    if id in ts' && |ts'[id].chunks| == |parts| {
      var accepted := Accepted(c, ts, id, parts, totalBytes, us);
      CompleteIffAllStored(ts'[id], parts, totalBytes, accepted);
      forall i | 0 <= i < |parts| ensures FetchSpec(ts', id, i) == Ok(FetchedChunk(parts[i], |parts|, totalBytes)) {
        assert i in accepted;
      }
      assert Datas(FetchAll(ts', id, |parts|)) == parts;
    }
  }

  // ---------------------------------------------------------------- nothing stands in the way

  function TotalLength(parts: seq<Bytes>): nat {
    if parts == [] then 0 else |parts[|parts| - 1]| + TotalLength(parts[..|parts| - 1])
  }

  lemma PartsMapSnoc(parts: seq<Bytes>)
    requires parts != []
    ensures var n := |parts| - 1;
            n !in PartsMap(parts[..n]) && PartsMap(parts) == PartsMap(parts[..n])[n := parts[n]]
  {
  }

  lemma {:induction false} PartsWeigh(parts: seq<Bytes>)
    ensures Sum(PartsMap(parts), Length) == TotalLength(parts)
  {
    if parts == [] {
      assert PartsMap(parts) == map[];
    } else {
      var n: nat := |parts| - 1;
      var before := PartsMap(parts[..n]);
      PartsWeigh(parts[..n]);
      SumUpdate(before, Length, n, parts[n]);
      PartsMapSnoc(parts);
    }
  }

  /** A file that fits the limits, and a store with room for it. */
  ghost predicate HasRoom(c: FileConfig, ts: Transfers, parts: seq<Bytes>) {
    && 1 <= |parts| <= c.maxChunks && (forall i :: 0 <= i < |parts| ==> parts[i] != [])
    && TotalLength(parts) <= c.maxFileBytes
    && TotalStored(ts) + TotalLength(parts) <= c.maxTotalFileBytes
    && |ts| < c.maxTransfers
  }

  /** With room for the file, a working disk and chunk 0 first, every upload is accepted whatever
      the order and the repeats, so the transfer is complete once each chunk has been sent. */
  lemma {:induction false} AllAccepted(c: FileConfig, ts: Transfers, id: string, parts: seq<Bytes>, us: seq<Upload>)
    requires id !in ts && HasRoom(c, ts, parts)
    requires us != [] ==> us[0].index == 0
    requires forall k :: 0 <= k < |us| ==> us[k].index < |parts| && us[k].disk.Works?
    ensures Accepted(c, ts, id, parts, TotalLength(parts), us) == Indices(us)
  {
    if us != [] {
      var n, before, totalBytes := |us| - 1, us[..|us| - 1], TotalLength(parts);
      AllAccepted(c, ts, id, parts, before);
      UploadsHold(c, ts, id, parts, totalBytes, before);
      var ts' := AfterUploads(c, ts, id, parts, totalBytes, before);
      var indices := Accepted(c, ts, id, parts, totalBytes, before);
      IndicesSnoc(us);
      AttemptAccepted(c, ts, ts', id, parts, us[n], indices);
    }
  }

  lemma IndicesSnoc(us: seq<Upload>)
    requires us != []
    ensures var n := |us| - 1; Indices(us) == Indices(us[..n]) + {us[n].index}
    ensures us[0].index in Indices(us) && (|us| > 1 ==> us[0].index in Indices(us[..|us| - 1]))
  {
    var before := us[..|us| - 1];
    assert |us| > 1 ==> before[0] == us[0];
    forall i ensures i in Indices(us) <==> i in Indices(before) || i == us[|us| - 1].index {
      if i in Indices(before) {
        var k :| 0 <= k < |before| && before[k].index == i;
        assert us[k].index == i;
      }
      if i in Indices(us) {
        var k :| 0 <= k < |us| && us[k].index == i;
        if k < |us| - 1 { assert before[k].index == i; }
      }
    }
  }

  lemma AttemptAccepted(c: FileConfig, ts: Transfers, ts': Transfers, id: string, parts: seq<Bytes>, u: Upload,
                        indices: set<nat>)
    requires id !in ts && HasRoom(c, ts, parts) && u.index < |parts| && u.disk.Works?
    requires ts' - {id} == ts && (id in ts' <==> indices != {})
    requires if id in ts' then Holds(ts'[id], parts, TotalLength(parts), indices) else u.index == 0
    ensures Attempt(c, ts', id, parts, TotalLength(parts), u).1.Ok?
  {
    var totalBytes, data := TotalLength(parts), parts[u.index];
    var t := if id in ts' then ts'[id] else Transfer(|parts|, totalBytes, u.claimAt, u.writeAt, map[]);
    var t' := WithChunk(t, u.index, data);
    ChunksWithinFile(t, parts, u.index);
    ReplaceBytes(t, u.index, data);
    OthersUnchanged(ts, ts', id, t);
    hide Sum, TotalStored, StoredBytes, TotalLength, PrevLen, PartsMap, WriteSpec;
    WriteAccepted(c, ts', id, t, u.index, data);
  }

  lemma WriteAccepted(c: FileConfig, ts: Transfers, id: string, t: Transfer, index: nat, data: Bytes)
    requires StoredBytes(WithChunk(t, index, data)) <= t.totalBytes <= c.maxFileBytes
    requires TotalStored(ts) + |data| <= c.maxTotalFileBytes + PrevLen(t, index)
    ensures WriteSpec(c, ts, id, t, index, data, Works).1.Ok?
  {
    hide TotalStored, StoredBytes, PrevLen, WithChunk;
  }

  /** Chunks of the file never weigh more than the file. */
  lemma ChunksWithinFile(t: Transfer, parts: seq<Bytes>, index: nat)
    requires index < |parts| && forall i :: i in t.chunks ==> i < |parts| && t.chunks[i] == parts[i]
    ensures StoredBytes(WithChunk(t, index, parts[index])) <= TotalLength(parts)
  {
    PartsWeigh(parts);
    SumMonotone(WithChunk(t, index, parts[index]).chunks, PartsMap(parts), Length);
  }

  lemma OthersUnchanged(ts: Transfers, ts': Transfers, id: string, t: Transfer)
    requires id !in ts && ts' - {id} == ts
    requires if id in ts' then t == ts'[id] else t.chunks == map[]
    ensures TotalStored(ts') == TotalStored(ts) + StoredBytes(t) && |ts'| == |ts| + (if id in ts' then 1 else 0)
  {
    hide Sum, StoredBytes;
    if id in ts' {
      SumRemove(ts', StoredBytes, id);
    } else {
      assert ts' == ts;
      EmptyStored(t);
    }
  }

  /** The whole story in one statement: send each chunk at least once, chunk 0 first, to a store
      with room, and the file comes back byte for byte. */
  lemma FileSurvives(c: FileConfig, ts: Transfers, id: string, parts: seq<Bytes>, us: seq<Upload>)
    requires id !in ts && HasRoom(c, ts, parts)
    requires us != [] && us[0].index == 0
    requires forall k :: 0 <= k < |us| ==> us[k].index < |parts| && us[k].disk.Works?
    requires FirstN(|parts|) <= Indices(us)
    ensures var ts' := AfterUploads(c, ts, id, parts, TotalLength(parts), us);
            && id in ts' && |ts'[id].chunks| == ts'[id].totalChunks == |parts|
            && Concat(Datas(FetchAll(ts', id, |parts|))) == Concat(parts)
            && ts' - {id} == ts
  {
    var totalBytes := TotalLength(parts);
    AllAccepted(c, ts, id, parts, us);
    UploadsHold(c, ts, id, parts, totalBytes, us);
    var ts', accepted := AfterUploads(c, ts, id, parts, totalBytes, us), Accepted(c, ts, id, parts, totalBytes, us);
    IndicesSnoc(us);
    hide Attempt, AfterUploads, Accepted;
    CompleteIffAllStored(ts'[id], parts, totalBytes, accepted);
    RoundTrip(c, ts, id, parts, totalBytes, us);
  }
}
