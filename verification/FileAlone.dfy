/** The concurrent file store serving one request at a time does what the specification says. */
module FileAlone {
  import opened Tables
  import opened FileSpec
  import opened FileStore
  import opened FileProtocol
  import opened FileTracking

  // ---------------------------------------------------------------- one request, start to end

  /** Whether the database obliges where a thread asks it. */
  predicate Obliges(pc: Pc, disk: Outcome) {
    match pc
    case Waiting(_, _) => !disk.BeginFails?
    case DelWaiting(_) => !disk.BeginFails?
    case _ => disk.Works?
  }

  /** The next `n` steps of a thread that nobody interrupts. */
  function Steps(c: FileConfig, s: Shared, t: nat, pc: Pc, disk: Outcome, n: nat): Moved
    decreases n
  {
    if n == 0 then To(s, pc)
    else var m := Step(c, s, t, pc, Obliges(pc, disk)); Steps(c, m.shared, t, m.pc, disk, n - 1)
  }

  /** A request taken on by an idle thread, and eight steps. */
  function Serve(c: FileConfig, s: Shared, t: nat, r: Request, disk: Outcome): Moved {
    var m := Act(c, s, t, Idle, r); Steps(c, m.shared, t, m.pc, disk, 8)
  }

  lemma {:induction false} NothingMore(c: FileConfig, s: Shared, t: nat, disk: Outcome, n: nat)
    ensures Steps(c, s, t, Idle, disk, n) == To(s, Idle)
  {
    if n != 0 { NothingMore(c, s, t, disk, n - 1); }
  }

  /** A write that failed gives back what a creation holds. */
  function GivenUp(s: Shared, u: Upload, creating: bool): Shared {
    if creating then s.(count := WrapSub(s.count, 1), cache := s.cache - {u.id}) else s
  }

  lemma GivesUp(c: FileConfig, s: Shared, t: nat, u: Upload, creating: bool, disk: Outcome, n: nat)
    requires n >= 2
    ensures Steps(c, s, t, AfterFailure(u, creating), disk, n) == To(GivenUp(s, u, creating), Idle)
  {
    if creating {
      var s1 := s.(count := WrapSub(s.count, 1));
      assert Step(c, s, t, Freeing(u), Obliges(Freeing(u), disk)) == To(s1, Unclaim(u));
      assert Step(c, s1, t, Unclaim(u), Obliges(Unclaim(u), disk)) == To(GivenUp(s, u, creating), Idle);
      hide Step, Obliges, GivenUp;
      assert Steps(c, s1, t, Unclaim(u), disk, n - 1) == Steps(c, GivenUp(s, u, creating), t, Idle, disk, n - 2);
    }
    NothingMore(c, GivenUp(s, u, creating), t, disk, if creating then n - 2 else n);
  }

  /** The tables, the counters and the cache after a commit and all that follows it. */
  function Finished(s: Shared, pc: Pc): Shared
    requires pc.Prepared?
  {
    s.(lock := None, metas := s.metas[pc.u.id := pc.meta],
       chunks := s.chunks[pc.u.id := ChunksOf(s, pc.u.id)[pc.u.index := pc.u.data]],
       reserved := SatSub(s.reserved, pc.release),
       cache := s.cache[pc.u.id := MirrorEntry(s.cache, pc.u, pc.meta)])
  }

  lemma Finishes(c: FileConfig, s: Shared, t: nat, pc: Pc, n: nat)
    requires pc.Prepared? && n >= 3
    ensures Steps(c, s, t, pc, Works, n) == To(Finished(s, pc), Idle)
  {
    var m := Commit(s, pc, true);
    var s2 := m.shared.(reserved := SatSub(s.reserved, pc.release));
    assert Step(c, s, t, pc, Obliges(pc, Works)) == m;
    assert Step(c, m.shared, t, m.pc, Obliges(m.pc, Works)) == To(s2, Mirror(pc.u, pc.meta));
    assert Step(c, s2, t, Mirror(pc.u, pc.meta), Obliges(Mirror(pc.u, pc.meta), Works)) == To(Finished(s, pc), Idle);
    NothingMore(c, Finished(s, pc), t, Works, n - 3);
    hide Step, Obliges, Finished, Commit;
    assert Steps(c, m.shared, t, m.pc, Works, n - 1) == Steps(c, s2, t, Mirror(pc.u, pc.meta), Works, n - 2);
  }

  /** A commit that fails: the reservation goes back too. */
  lemma RollsBack(c: FileConfig, s: Shared, t: nat, pc: Pc, disk: Outcome, n: nat)
    requires pc.Prepared? && n >= 4 && !disk.Works?
    ensures Steps(c, s, t, pc, disk, n)
            == To(GivenUp(s.(lock := None, reserved := SatSub(s.reserved, pc.add)), pc.u, pc.creating), Idle)
  {
    var s1 := s.(lock := None);
    var s2 := s1.(reserved := SatSub(s.reserved, pc.add));
    var failed := AfterFailure(pc.u, pc.creating);
    if pc.add > 0 {
      var undo := Undo(pc.u, pc.creating, pc.add);
      assert Step(c, s, t, pc, Obliges(pc, disk)) == To(s1, undo);
      assert Step(c, s1, t, undo, Obliges(undo, disk)) == To(s2, failed);
      GivesUp(c, s2, t, pc.u, pc.creating, disk, n - 2);
      hide Step, Obliges, GivenUp, AfterFailure;
      assert Steps(c, s1, t, undo, disk, n - 1) == Steps(c, s2, t, failed, disk, n - 2);
    } else {
      assert s2 == s1;
      assert Step(c, s, t, pc, Obliges(pc, disk)) == To(s1, failed);
      GivesUp(c, s1, t, pc.u, pc.creating, disk, n - 1);
      hide Step, Obliges, GivenUp, AfterFailure;
    }
  }

  /** How a write ends that starts with the lock free. */
  function Ended(c: FileConfig, s: Shared, t: nat, u: Upload, creating: bool, disk: Outcome): Shared {
    var m := Prepare(c, s.(lock := Some(t)), u, creating);
    if disk.BeginFails? || !m.pc.Prepared? then GivenUp(s, u, creating)
    else if disk.Works? then Finished(m.shared, m.pc)
    else GivenUp(s.(reserved := SatSub(m.shared.reserved, m.pc.add)), u, creating)
  }

  lemma PrepareEnds(c: FileConfig, s: Shared, u: Upload, creating: bool)
    ensures var m := Prepare(c, s, u, creating);
            && (m.pc.Prepared? ==>
                  && m.shared == s.(reserved := s.reserved + m.pc.add) && m.pc.u == u && m.pc.creating == creating)
            && (!m.pc.Prepared? ==> m == To(s.(lock := None), AfterFailure(u, creating)))
  {
  }

  lemma WriteEnds(c: FileConfig, s: Shared, t: nat, u: Upload, creating: bool, disk: Outcome, n: nat)
    requires s.lock == None && n >= 6
    ensures Steps(c, s, t, Waiting(u, creating), disk, n) == To(Ended(c, s, t, u, creating, disk), Idle)
  {
    var pc, locked := Waiting(u, creating), s.(lock := Some(t));
    if disk.BeginFails? {
      assert Step(c, s, t, pc, Obliges(pc, disk)) == To(s, AfterFailure(u, creating));
      GivesUp(c, s, t, u, creating, disk, n - 1);
    } else {
      var inTxn, m := InTxn(u, creating), Prepare(c, locked, u, creating);
      assert Step(c, s, t, pc, Obliges(pc, disk)) == To(locked, inTxn);
      assert Step(c, locked, t, inTxn, Obliges(inTxn, disk)) == m;
      PrepareEnds(c, locked, u, creating);
      hide Prepare, Step, Obliges, AfterFailure, GivenUp, Finished;
      assert Steps(c, locked, t, inTxn, disk, n - 1) == Steps(c, m.shared, t, m.pc, disk, n - 2);
      if !m.pc.Prepared? {
        assert locked.(lock := None) == s;
        GivesUp(c, s, t, u, creating, disk, n - 2);
      } else if disk.Works? {
        Finishes(c, m.shared, t, m.pc, n - 2);
      } else {
        RollsBack(c, m.shared, t, m.pc, disk, n - 2);
        assert m.shared.(lock := None, reserved := SatSub(m.shared.reserved, m.pc.add))
            == s.(reserved := SatSub(m.shared.reserved, m.pc.add));
      }
    }
  }

  // ---------------------------------------------------------------- what a settled store stands for

  predicate Mirrored(metas: map<string, FileMeta>, cache: map<string, FileMeta>) {
    && cache.Keys == metas.Keys
    && (forall id :: id in metas ==> cache[id] == metas[id].(createdAtMs := cache[id].createdAtMs))
  }

  /** Nothing under way: no lock, every row true of its chunks and mirrored in the cache but for the creation time,
      and the counters exact. */
  ghost predicate Settled(c: FileConfig, s: Shared) {
    && s.lock == None && Disk(c, s) && Mirrored(s.metas, s.cache)
    && s.reserved == Sum(s.metas, Stored) && s.count == |s.metas|
  }

  function TransferOf(row: FileMeta, entry: FileMeta, chunks: map<nat, Bytes>): Transfer {
    Transfer(row.totalChunks, row.totalBytes, entry.createdAtMs, row.createdAtMs, chunks)
  }

  function TransfersOf(s: Shared): Transfers {
    map id | id in s.metas && id in s.cache && id in s.chunks :: TransferOf(s.metas[id], s.cache[id], s.chunks[id])
  }

  lemma RowOf(c: FileConfig, s: Shared, id: string)
    requires Settled(c, s) && id in s.metas
    ensures id in s.chunks && id in s.cache && id in TransfersOf(s) && DurableMeta(TransfersOf(s)[id]) == s.metas[id]
    ensures forall i :: i in s.chunks[id] ==> s.chunks[id][i] != []
  {
    assert RowTrue(c, s.metas[id], s.chunks[id]);
    hide Sum;
  }

  lemma RowsAreMetas(ts: Transfers, metas: map<string, FileMeta>)
    requires ts.Keys == metas.Keys && forall id :: id in ts ==> DurableMeta(ts[id]) == metas[id]
    ensures DurableOf(ts) == metas
  {
    hide DurableMeta;
  }

  lemma CountersTrue(c: FileConfig, s: Shared)
    requires Settled(c, s)
    ensures s.reserved == TotalStored(TransfersOf(s)) && s.count == |TransfersOf(s)|
  {
    var ts := TransfersOf(s);
    MetaTotals(ts);
    RowsTrue(c, s);
    hide *;
    RowsAreMetas(ts, s.metas);
  }

  lemma RowsTrue(c: FileConfig, s: Shared)
    requires Settled(c, s)
    ensures TransfersOf(s).Keys == s.metas.Keys
    ensures forall id :: id in TransfersOf(s) ==> DurableMeta(TransfersOf(s)[id]) == s.metas[id]
  {
    forall id | id in s.metas ensures DurableMeta(TransfersOf(s)[id]) == s.metas[id] { RowOf(c, s, id); }
    hide DurableMeta, RowTrue;
  }

  /** The transfer a write finds, and the row it reads of it. */
  ghost predicate Finds(c: FileConfig, s: Shared, u: Upload, creating: bool, t: Transfer) {
    && t.chunks == ChunksOf(s, u.id) && (forall i :: i in t.chunks ==> t.chunks[i] != [])
    && if creating then t.chunks == map[] && t == Transfer(u.totalChunks, u.totalBytes, s.now, s.now, map[])
       else u.id in s.metas && s.metas[u.id] == DurableMeta(t)
  }

  /** The write transaction accepts what the specification accepts, and plans the row and the bytes of the
      transfer with the new chunk. */
  lemma PreparesAsSpecified(c: FileConfig, ts: Transfers, s: Shared, u: Upload, creating: bool, t: Transfer)
    requires Finds(c, s, u, creating, t) && s.reserved == TotalStored(ts)
    ensures var pc, t' := Prepare(c, s, u, creating).pc, WithChunk(t, u.index, u.data);
            && (pc.Prepared? <==> WriteSpec(c, ts, u.id, t, u.index, u.data, Works).1.Ok?)
            && (pc.Prepared? ==>
                  && pc.meta == DurableMeta(t') && StoredBytes(t') <= t.totalBytes && StoredBytes(t') <= c.maxFileBytes
                  && StoredBytes(t) + pc.add == StoredBytes(t') + pc.release)
  {
    ReplaceBytes(t, u.index, u.data);
    if creating { EmptyStored(t); }
    assert PrevLen(t, u.index) == PrevOf(ChunksOf(s, u.id), u.index);
    hide StoredBytes, TotalStored, Sum;
  }

  // ---------------------------------------------------------------- an upload

  /** With the claim and the slot of a creation. */
  function Entered(s: Shared, u: Upload): Shared {
    if u.id in s.metas then s
    else s.(cache := s.cache[u.id := FileMeta(u.totalChunks, u.totalBytes, 0, 0, s.now)], count := s.count + 1)
  }

  function Found(s: Shared, u: Upload): Transfer {
    if u.id in TransfersOf(s) then TransfersOf(s)[u.id]
    else Transfer(u.totalChunks, u.totalBytes, s.now, s.now, map[])
  }

  predicate SameShape(s: Shared, u: Upload) {
    u.id in s.metas ==> s.metas[u.id].totalChunks == u.totalChunks && s.metas[u.id].totalBytes == u.totalBytes
  }

  lemma FindsIt(c: FileConfig, s: Shared, t: nat, u: Upload)
    requires Settled(c, s)
    ensures var s1 := Entered(s, u).(lock := Some(t)); Finds(c, s1, u, u.id !in s.metas, Found(s, u))
  {
    if u.id in s.metas { RowOf(c, s, u.id); }
    hide DurableMeta, RowTrue, Sum;
  }

  /** Giving up leaves the store as it was before the claim. */
  lemma GivenUpIsBefore(c: FileConfig, s: Shared, u: Upload)
    requires Settled(c, s)
    ensures GivenUp(Entered(s, u), u, u.id !in s.metas) == s
  {
    if u.id !in s.metas { PutBack(s.cache, u.id, FileMeta(u.totalChunks, u.totalBytes, 0, 0, s.now)); }
    hide Disk;
  }

  /** The row, the chunks and the entry of the transfer with its new chunk. */
  predicate Adds(s: Shared, s': Shared, u: Upload, t': Transfer, row: FileMeta) {
    && s'.metas == s.metas[u.id := row] && s'.chunks == s.chunks[u.id := t'.chunks]
    && s'.cache == s.cache[u.id := row.(createdAtMs := t'.cachedAt)]
    && s'.lock == None && s'.count == (if u.id in s.metas then s.count else s.count + 1)
  }

  lemma AddedRows(c: FileConfig, s: Shared, s': Shared, id: string, row: FileMeta, chunks: map<nat, Bytes>)
    requires Disk(c, s) && RowTrue(c, row, chunks)
    requires s'.metas == s.metas[id := row] && s'.chunks == s.chunks[id := chunks]
    ensures Disk(c, s')
  {
    hide RowTrue;
  }

  lemma AddedTransfer(s: Shared, s': Shared, u: Upload, t': Transfer, row: FileMeta)
    requires s.metas.Keys == s.cache.Keys == s.chunks.Keys && Adds(s, s', u, t', row)
    requires TransferOf(row, row.(createdAtMs := t'.cachedAt), t'.chunks) == t'
    ensures s'.metas.Keys == s'.cache.Keys == s'.chunks.Keys
    ensures TransfersOf(s') == TransfersOf(s)[u.id := t']
  {
    hide TransferOf;
  }

  lemma AddedIsSettled(c: FileConfig, s: Shared, s': Shared, u: Upload, t': Transfer)
    requires Settled(c, s) && Adds(s, s', u, t', DurableMeta(t'))
    requires StoredBytes(t') <= t'.totalBytes <= c.maxFileBytes && forall i :: i in t'.chunks ==> t'.chunks[i] != []
    requires s'.reserved == Sum(s.metas[u.id := DurableMeta(t')], Stored)
    ensures Settled(c, s') && TransfersOf(s') == TransfersOf(s)[u.id := t']
  {
    var row := DurableMeta(t');
    AddedRows(c, s, s', u.id, row, t'.chunks);
    AddedTransfer(s, s', u, t', row);
    AddedMirror(s.metas, s.cache, u.id, row, t'.cachedAt);
    SumUpdate(s.metas, Stored, u.id, row);
    hide Disk, Mirrored, RowTrue, Sum, DurableMeta, StoredBytes, TransferOf, TransfersOf;
  }

  lemma AddedMirror(metas: map<string, FileMeta>, cache: map<string, FileMeta>, id: string, row: FileMeta, at: nat)
    requires Mirrored(metas, cache)
    ensures Mirrored(metas[id := row], cache[id := row.(createdAtMs := at)])
  {
  }

  lemma ShapeFound(c: FileConfig, s: Shared, u: Upload)
    requires Settled(c, s) && SameShape(s, u)
    ensures Found(s, u).totalChunks == u.totalChunks && Found(s, u).totalBytes == u.totalBytes
    ensures u.id in TransfersOf(s) <==> u.id in s.metas
  {
    if u.id in s.metas { RowOf(c, s, u.id); }
    hide Settled, StoredBytes;
  }

  /** The mirror takes the new counts, and keeps the creation time of the entry. */
  lemma MirrorsRow(c: FileConfig, s: Shared, u: Upload, row: FileMeta)
    requires Settled(c, s) && SameShape(s, u) && row == DurableMeta(WithChunk(Found(s, u), u.index, u.data))
    ensures MirrorEntry(Entered(s, u).cache, u, row) == row.(createdAtMs := Found(s, u).cachedAt)
  {
    ShapeFound(c, s, u);
    if u.id in s.metas { RowOf(c, s, u.id); }
    ReplaceBytes(Found(s, u), u.index, u.data);
    hide Disk, Sum, StoredBytes;
  }

  lemma ChunksFound(c: FileConfig, s: Shared, u: Upload)
    requires Settled(c, s)
    ensures ChunksOf(s, u.id) == Found(s, u).chunks
  {
    if u.id in s.metas { RowOf(c, s, u.id); }
    hide StoredBytes, Sum, RowTrue;
  }

  /** The state a commit finds and the one it leaves when all is done. */
  function AfterCommit(s: Shared, t: nat, u: Upload, pc: Pc): Shared
    requires pc.Prepared?
  {
    var s1 := Entered(s, u).(lock := Some(t));
    Finished(s1.(reserved := s1.reserved + pc.add), pc)
  }

  lemma FinishedAdds(c: FileConfig, s: Shared, t: nat, u: Upload, pc: Pc)
    requires Settled(c, s) && SameShape(s, u) && pc.Prepared? && pc.u == u
    requires pc.meta == DurableMeta(WithChunk(Found(s, u), u.index, u.data))
    ensures Adds(s, AfterCommit(s, t, u, pc), u, WithChunk(Found(s, u), u.index, u.data), pc.meta)
  {
    MirrorsRow(c, s, u, pc.meta);
    ChunksFound(c, s, u);
    hide Settled, DurableMeta, MirrorEntry, ChunksOf, Found;
    assert AfterCommit(s, t, u, pc).cache == s.cache[u.id := MirrorEntry(Entered(s, u).cache, u, pc.meta)];
  }

  /** Accepted or not is decided first; then the database has its say. */
  lemma WriteByDisk(c: FileConfig, ts: Transfers, id: string, t: Transfer, index: nat, data: Bytes, disk: Outcome)
    ensures var accepted := disk.Works? && WriteSpec(c, ts, id, t, index, data, Works).1.Ok?;
            WriteSpec(c, ts, id, t, index, data, disk).0 == if accepted then ts[id := WithChunk(t, index, data)] else ts
  {
    hide StoredBytes, TotalStored, WithChunk, PrevLen;
  }

  /** The bytes reserved before a commit, less what the commit releases, are those of the rows after it. */
  lemma ReleasedIsExact(c: FileConfig, s: Shared, u: Upload, row: FileMeta, add: nat, release: nat)
    requires Settled(c, s) && StoredBytes(Found(s, u)) + add == row.storedBytes + release
    ensures SatSub(s.reserved + add, release) == Sum(s.metas[u.id := row], Stored)
  {
    SumUpdate(s.metas, Stored, u.id, row);
    if u.id in s.metas { RowOf(c, s, u.id); } else { EmptyStored(Found(s, u)); }
    hide Disk, Mirrored, Sum, StoredBytes, TransfersOf;
  }

  /** The commit at hand is that of the transfer with its new chunk. */
  ghost predicate Plans(c: FileConfig, pc: Pc, t: Transfer, t': Transfer) {
    && pc.Prepared? && pc.meta == DurableMeta(t') && StoredBytes(t) + pc.add == StoredBytes(t') + pc.release
    && StoredBytes(t') <= t'.totalBytes <= c.maxFileBytes && forall i :: i in t'.chunks ==> t'.chunks[i] != []
  }

  lemma FinishedAsSpecified(c: FileConfig, s: Shared, t: nat, u: Upload, pc: Pc, t': Transfer)
    requires Settled(c, s) && SameShape(s, u) && pc.Prepared? && pc.u == u
    requires t' == WithChunk(Found(s, u), u.index, u.data) && Plans(c, pc, Found(s, u), t')
    ensures var s' := AfterCommit(s, t, u, pc);
            Settled(c, s') && s'.now == s.now && TransfersOf(s') == TransfersOf(s)[u.id := t']
  {
    FinishedAdds(c, s, t, u, pc);
    ReleasedIsExact(c, s, u, pc.meta, pc.add, pc.release);
    hide Settled, Adds, StoredBytes, Found, WithChunk, DurableMeta, TransfersOf;
    AddedIsSettled(c, s, AfterCommit(s, t, u, pc), u, t');
  }

  lemma ChunksNonempty(c: FileConfig, s: Shared, u: Upload)
    requires Settled(c, s) && u.data != []
    ensures var t' := WithChunk(Found(s, u), u.index, u.data); forall i :: i in t'.chunks ==> t'.chunks[i] != []
  {
    if u.id in s.metas { RowOf(c, s, u.id); }
    hide Settled, DurableMeta;
  }

  /** What the transaction plans for a settled store, and whether it plans anything. */
  lemma PlansAsSpecified(c: FileConfig, s: Shared, t: nat, u: Upload)
    requires Settled(c, s) && SameShape(s, u) && u.data != [] && u.totalBytes <= c.maxFileBytes
    ensures var s1 := Entered(s, u).(lock := Some(t));
            var f, pc := Found(s, u), Prepare(c, s1, u, u.id !in s.metas).pc;
            && (pc.Prepared? <==> WriteSpec(c, TransfersOf(s), u.id, f, u.index, u.data, Works).1.Ok?)
            && (pc.Prepared? ==> Plans(c, pc, f, WithChunk(f, u.index, u.data)))
  {
    FindsIt(c, s, t, u);
    CountersTrue(c, s);
    ShapeFound(c, s, u);
    ChunksNonempty(c, s, u);
    hide Settled, Finds, Prepare, WriteSpec, StoredBytes, TotalStored, TransfersOf, DurableMeta, Found;
    PreparesAsSpecified(c, TransfersOf(s), Entered(s, u).(lock := Some(t)), u, u.id !in s.metas, Found(s, u));
  }

  lemma EndedByDisk(c: FileConfig, s: Shared, t: nat, u: Upload, disk: Outcome)
    requires Settled(c, s)
    ensures var pc := Prepare(c, Entered(s, u).(lock := Some(t)), u, u.id !in s.metas).pc;
            Ended(c, Entered(s, u), t, u, u.id !in s.metas, disk)
            == if pc.Prepared? && disk.Works? then AfterCommit(s, t, u, pc) else s
  {
    var s1 := Entered(s, u).(lock := Some(t));
    PrepareEnds(c, s1, u, u.id !in s.metas);
    GivenUpIsBefore(c, s, u);
    var m := Prepare(c, s1, u, u.id !in s.metas);
    hide Settled, Prepare, GivenUp, Finished;
    if m.pc.Prepared? {
      assert Entered(s, u).(reserved := SatSub(m.shared.reserved, m.pc.add)) == Entered(s, u);
    }
  }

  lemma WrittenAsSpecified(c: FileConfig, s: Shared, t: nat, u: Upload, disk: Outcome)
    requires Settled(c, s) && SameShape(s, u) && u.data != [] && u.totalBytes <= c.maxFileBytes
    ensures var s' := Ended(c, Entered(s, u), t, u, u.id !in s.metas, disk);
            && Settled(c, s') && s'.now == s.now
            && TransfersOf(s') == WriteSpec(c, TransfersOf(s), u.id, Found(s, u), u.index, u.data, disk).0
  {
    var s1 := Entered(s, u).(lock := Some(t));
    var pc := Prepare(c, s1, u, u.id !in s.metas).pc;
    PlansAsSpecified(c, s, t, u);
    PrepareEnds(c, s1, u, u.id !in s.metas);
    EndedByDisk(c, s, t, u, disk);
    WriteByDisk(c, TransfersOf(s), u.id, Found(s, u), u.index, u.data, disk);
    hide *;
    if pc.Prepared? && disk.Works? {
      FinishedAsSpecified(c, s, t, u, pc, WithChunk(Found(s, u), u.index, u.data));
    }
  }

  /** The uploads that get to write. */
  predicate Enters(c: FileConfig, s: Shared, u: Upload) {
    ShapeOk(c, u) && SameShape(s, u) && (u.id !in s.metas ==> u.index == 0 && s.count < c.maxTransfers)
  }

  lemma EntersBySpec(c: FileConfig, ts: Transfers, u: Upload, now: nat, f: Transfer, disk: Outcome)
    requires f == if u.id in ts then ts[u.id] else Transfer(u.totalChunks, u.totalBytes, now, now, map[])
    ensures StoreSpec(c, ts, u.id, u.index, u.totalChunks, u.totalBytes, u.data, now, now, disk).0
            == if ShapeOk(c, u) && f.totalChunks == u.totalChunks && f.totalBytes == u.totalBytes
                  && (u.id !in ts ==> u.index == 0 && |ts| < c.maxTransfers)
               then WriteSpec(c, ts, u.id, f, u.index, u.data, disk).0 else ts
  {
    hide WriteSpec;
  }

  lemma EntersAsSpecified(c: FileConfig, s: Shared, u: Upload, disk: Outcome)
    requires Settled(c, s)
    ensures var ts := TransfersOf(s);
            StoreSpec(c, ts, u.id, u.index, u.totalChunks, u.totalBytes, u.data, s.now, s.now, disk).0
            == if Enters(c, s, u) then WriteSpec(c, ts, u.id, Found(s, u), u.index, u.data, disk).0 else ts
  {
    CountersTrue(c, s);
    RowsTrue(c, s);
    hide Settled, TransfersOf, WriteSpec, StoreSpec, StoredBytes, TotalStored, Sum, ShapeOk;
    EntersBySpec(c, TransfersOf(s), u, s.now, Found(s, u), disk);
    assert u.id in TransfersOf(s) ==> DurableMeta(TransfersOf(s)[u.id]) == s.metas[u.id];
  }

  /** One upload, with nobody else at work, does to the transfers what the specification says, and leaves the
      store settled. */
  lemma AloneStoresAsSpecified(c: FileConfig, s: Shared, t: nat, u: Upload, disk: Outcome)
    requires Settled(c, s)
    ensures var m := Serve(c, s, t, Store(u), disk);
            && m.pc == Idle && Settled(c, m.shared) && m.shared.now == s.now
            && TransfersOf(m.shared) == StoreSpec(c, TransfersOf(s), u.id, u.index, u.totalChunks, u.totalBytes,
                                                  u.data, s.now, s.now, disk).0
  {
    EntersAsSpecified(c, s, u, disk);
    hide Serve, Ended, Settled, WriteSpec, TransfersOf, StoreSpec;
    if Enters(c, s, u) {
      EntersAndWrites(c, s, t, u, disk);
      WrittenAsSpecified(c, s, t, u, disk);
    } else {
      TurnedAway(c, s, t, u, disk);
    }
  }

  lemma EntersAndWrites(c: FileConfig, s: Shared, t: nat, u: Upload, disk: Outcome)
    requires Settled(c, s) && Enters(c, s, u)
    ensures Serve(c, s, t, Store(u), disk) == To(Ended(c, Entered(s, u), t, u, u.id !in s.metas, disk), Idle)
  {
    var s1, creating := Entered(s, u), u.id !in s.metas;
    if creating {
      var s0 := s.(cache := s1.cache);
      assert Act(c, s, t, Idle, Store(u)) == To(s0, Claimed(u));
      assert Step(c, s0, t, Claimed(u), Obliges(Claimed(u), disk)) == To(s1, Waiting(u, true));
      WriteEnds(c, s1, t, u, true, disk, 7);
    } else {
      assert Act(c, s, t, Idle, Store(u)) == To(s, Waiting(u, false));
      WriteEnds(c, s, t, u, false, disk, 8);
    }
    hide Act, Step, Ended, Obliges;
  }

  /** An upload that does not get to write leaves no trace. */
  lemma TurnedAway(c: FileConfig, s: Shared, t: nat, u: Upload, disk: Outcome)
    requires Settled(c, s) && !Enters(c, s, u)
    ensures Serve(c, s, t, Store(u), disk) == To(s, Idle)
  {
    NothingMore(c, s, t, disk, 8);
    if ShapeOk(c, u) && SameShape(s, u) && u.index == 0 {
      var s0 := s.(cache := s.cache[u.id := FileMeta(u.totalChunks, u.totalBytes, 0, 0, s.now)]);
      PutBack(s.cache, u.id, FileMeta(u.totalChunks, u.totalBytes, 0, 0, s.now));
      assert Act(c, s, t, Idle, Store(u)) == To(s0, Claimed(u));
      assert Step(c, s0, t, Claimed(u), Obliges(Claimed(u), disk)) == To(s0, Unclaim(u));
      assert Step(c, s0, t, Unclaim(u), Obliges(Unclaim(u), disk)) == To(s, Idle);
      NothingMore(c, s, t, disk, 6);
      hide Act, Step, Obliges;
      assert Steps(c, s0, t, Claimed(u), disk, 8) == Steps(c, s0, t, Unclaim(u), disk, 7);
    }
  }

  // ---------------------------------------------------------------- a delete

  function Deleted(s: Shared, id: string): Shared {
    if id !in s.metas then s
    else s.(metas := s.metas - {id}, chunks := s.chunks - {id}, cache := s.cache - {id}, count := WrapSub(s.count, 1),
            reserved := SatSub(s.reserved, s.metas[id].storedBytes))
  }

  lemma DeleteEnds(c: FileConfig, s: Shared, t: nat, id: string, disk: Outcome)
    requires Settled(c, s)
    ensures Serve(c, s, t, Delete(id), disk) == To(if disk.Works? then Deleted(s, id) else s, Idle)
  {
    var locked := s.(lock := Some(t));
    assert Act(c, s, t, Idle, Delete(id)) == To(s, DelWaiting(id));
    NothingMore(c, s, t, disk, 7);
    NothingMore(c, s, t, disk, 6);
    assert locked.(lock := None) == s;
    if !disk.BeginFails? {
      assert Step(c, s, t, DelWaiting(id), true) == To(locked, DelTxn(id));
      assert Steps(c, s, t, DelWaiting(id), disk, 8) == Steps(c, locked, t, DelTxn(id), disk, 7);
      if disk.Works? { DeleteCommits(c, s, t, id); }
    }
    hide Deleted;
  }

  lemma DropEnds(c: FileConfig, s: Shared, t: nat, id: string, stored: nat, n: nat)
    requires n >= 3
    ensures Steps(c, s, t, DelDrop(id, stored), Works, n)
            == To(s.(cache := s.cache - {id}, count := WrapSub(s.count, 1), reserved := SatSub(s.reserved, stored)),
                  Idle)
  {
    var s1 := s.(cache := s.cache - {id});
    var s2 := s1.(count := WrapSub(s.count, 1));
    var s3 := s2.(reserved := SatSub(s.reserved, stored));
    assert Step(c, s, t, DelDrop(id, stored), true) == To(s1, DelSlot(id, stored));
    assert Step(c, s1, t, DelSlot(id, stored), true) == To(s2, DelBytes(id, stored));
    assert Step(c, s2, t, DelBytes(id, stored), true) == To(s3, Idle);
    NothingMore(c, s3, t, Works, n - 3);
    hide Step, WrapSub, SatSub;
    assert Steps(c, s1, t, DelSlot(id, stored), Works, n - 1) == Steps(c, s2, t, DelBytes(id, stored), Works, n - 2);
  }

  lemma DeleteCommits(c: FileConfig, s: Shared, t: nat, id: string)
    requires s.lock == None && s.chunks.Keys == s.metas.Keys
    ensures Steps(c, s.(lock := Some(t)), t, DelTxn(id), Works, 7) == To(Deleted(s, id), Idle)
  {
    var locked := s.(lock := Some(t));
    var s1 := s.(metas := s.metas - {id}, chunks := s.chunks - {id});
    if id in s.metas {
      assert Step(c, locked, t, DelTxn(id), true) == To(s1, DelDrop(id, s.metas[id].storedBytes));
      DropEnds(c, s1, t, id, s.metas[id].storedBytes, 6);
    } else {
      assert s.metas - {id} == s.metas && s.chunks - {id} == s.chunks;
      assert Step(c, locked, t, DelTxn(id), true) == To(s, Idle);
      NothingMore(c, s, t, Works, 6);
    }
    hide Step;
  }

  lemma DeletedRows(c: FileConfig, s: Shared, id: string)
    requires Disk(c, s)
    ensures Disk(c, Deleted(s, id))
  {
    hide RowTrue;
  }

  lemma DeletedMirror(metas: map<string, FileMeta>, cache: map<string, FileMeta>, id: string)
    requires Mirrored(metas, cache)
    ensures Mirrored(metas - {id}, cache - {id})
  {
  }

  lemma DeletedTransfer(s: Shared, id: string)
    ensures id in s.metas ==> TransfersOf(Deleted(s, id)) == TransfersOf(s) - {id}
    ensures id !in s.metas ==> TransfersOf(s) - {id} == TransfersOf(s)
  {
    hide TransferOf;
  }

  lemma DeletedIsSettled(c: FileConfig, s: Shared, id: string)
    requires Settled(c, s)
    ensures Settled(c, Deleted(s, id)) && TransfersOf(Deleted(s, id)) == TransfersOf(s) - {id}
  {
    DeletedTransfer(s, id);
    DeletedRows(c, s, id);
    DeletedMirror(s.metas, s.cache, id);
    if id in s.metas { SumRemove(s.metas, Stored, id); }
    hide Disk, Mirrored, Sum, TransfersOf;
  }

  /** One delete, with nobody else at work, removes the transfer, or nothing when the database refuses. */
  lemma AloneDeletesAsSpecified(c: FileConfig, s: Shared, t: nat, id: string, disk: Outcome)
    requires Settled(c, s)
    ensures var m := Serve(c, s, t, Delete(id), disk);
            && m.pc == Idle && Settled(c, m.shared) && m.shared.now == s.now
            && TransfersOf(m.shared) == TransfersOf(s) - if disk.Works? then {id} else {}
  {
    DeleteEnds(c, s, t, id, disk);
    DeletedIsSettled(c, s, id);
    MinusNothing(TransfersOf(s));
    hide Settled, TransfersOf, Serve;
  }

  // ---------------------------------------------------------------- requests one after another

  datatype Call =
    | Upload(u: FileProtocol.Upload, disk: Outcome)
    | Remove(id: string, disk: Outcome)
    | Wait(ms: nat)

  function ServeCall(c: FileConfig, s: Shared, t: nat, call: Call): Shared {
    match call
    case Upload(u, disk) => Serve(c, s, t, Store(u), disk).shared
    case Remove(id, disk) => Serve(c, s, t, Delete(id), disk).shared
    case Wait(ms) => s.(now := s.now + ms)
  }

  function ServeAll(c: FileConfig, s: Shared, t: nat, calls: seq<Call>): Shared
    decreases |calls|
  {
    if calls == [] then s else ServeAll(c, ServeCall(c, s, t, calls[0]), t, calls[1..])
  }

  function Elapsed(call: Call): nat { if call.Wait? then call.ms else 0 }

  ghost function SpecCall(c: FileConfig, ts: Transfers, now: nat, call: Call): Transfers {
    match call
    case Upload(u, disk) =>
      StoreSpec(c, ts, u.id, u.index, u.totalChunks, u.totalBytes, u.data, now, now, disk).0
    case Remove(id, disk) => if disk.Works? then ts - {id} else ts
    case Wait(_) => ts
  }

  ghost function SpecAll(c: FileConfig, ts: Transfers, now: nat, calls: seq<Call>): Transfers
    decreases |calls|
  {
    if calls == [] then ts else SpecAll(c, SpecCall(c, ts, now, calls[0]), now + Elapsed(calls[0]), calls[1..])
  }

  lemma CallAsSpecified(c: FileConfig, s: Shared, t: nat, call: Call)
    requires Settled(c, s)
    ensures var s' := ServeCall(c, s, t, call);
            && Settled(c, s') && s'.now == s.now + Elapsed(call)
            && TransfersOf(s') == SpecCall(c, TransfersOf(s), s.now, call)
  {
    match call
    case Upload(u, disk) => AloneStoresAsSpecified(c, s, t, u, disk); hide *;
    case Remove(id, disk) => AloneDeletesAsSpecified(c, s, t, id, disk); MinusNothing(TransfersOf(s));
    case Wait(_) =>
  }

  /** A store just opened stands for its durable transfers, aged by their durable creation times. */
  lemma OpenedIsSettled(c: FileConfig, s: State)
    requires Opened(c, s)
    ensures Settled(c, s.shared) && TransfersOf(s.shared).Keys == s.shared.metas.Keys
    ensures Reopened(TransfersOf(s.shared)) == TransfersOf(s.shared)
  {
    hide RowTrue, Sum;
  }

  /** The entry of a transfer has been brought up to date by the mirrors, and no further. */
  ghost predicate CountsMirrored(c: FileConfig, s0: State, run: seq<Action>, id: string, row: FileMeta) {
    var w := Written(c, s0, run, id);
    && (forall n :: n in w ==> n <= row.receivedChunks)
    && row.receivedChunks in w && w[row.receivedChunks] == row.storedBytes
  }

  lemma {:induction false} IdleHolds(threads: map<nat, Pc>, held: Pc -> nat)
    requires held(Idle) == 0 && forall t :: t in threads ==> threads[t].Idle?
    ensures Sum(threads, held) == 0
    decreases |threads|
  {
    if threads != map[] {
      var t :| t in threads;
      SumRemove(threads, held, t);
      IdleHolds(threads - {t}, held);
    }
  }

  lemma QuietCounters(c: FileConfig, s: State)
    requires Inv(c, s) && Quiet(s)
    ensures s.shared.lock == None && Disk(c, s.shared)
    ensures s.shared.reserved == Sum(s.shared.metas, Stored) && s.shared.count == |s.shared.metas|
  {
    IdleHolds(s.threads, HeldBytes);
    IdleHolds(s.threads, HeldSlots);
    hide Disk, Sum, Owners, AllRemember;
  }

  lemma EntryMirrored(c: FileConfig, s0: State, run: seq<Action>, id: string)
    requires Opened(c, s0) && Quiet(Run(c, s0, run)) && id in Run(c, s0, run).shared.metas
    ensures var s := Run(c, s0, run).shared;
            && id in s.cache
            && (s.cache[id] == s.metas[id].(createdAtMs := s.cache[id].createdAtMs) <==>
                  CountsMirrored(c, s0, run, id, s.metas[id]))
  {
    ShapeReachesCache(c, s0, run, id);
    CountsReachCache(c, s0, run, id);
    hide Run, Written, Opened, Quiet;
  }

  /** After any concurrent run, once all is answered: the store is settled again exactly when no mirror was late
      and every entry is as far as its transfer. */
  lemma SettledExactlyWhen(c: FileConfig, s0: State, run: seq<Action>)
    requires Opened(c, s0) && Quiet(Run(c, s0, run))
    ensures var s := Run(c, s0, run).shared;
            Settled(c, s) <==>
            LateIds(c, s0, run) == {} && forall id :: id in s.metas ==> CountsMirrored(c, s0, run, id, s.metas[id])
  {
    var s := Run(c, s0, run);
    OpenedInv(c, s0);
    RunInv(c, s0, run);
    QuietCounters(c, s);
    CacheMatchesUnlessLate(c, s0, run);
    forall id | id in s.shared.metas
      ensures id in s.shared.cache
      ensures s.shared.cache[id] == s.shared.metas[id].(createdAtMs := s.shared.cache[id].createdAtMs) <==>
              CountsMirrored(c, s0, run, id, s.shared.metas[id])
    {
      EntryMirrored(c, s0, run, id);
    }
    hide Run, LateIds, CountsMirrored, Inv, Quiet, Disk, Opened;
  }

  /** Any uploads and deletes served one after another, whatever the database refuses, do to the transfers what the
      specification says; row, cache, byte and slot counters agree after each. */
  lemma {:induction false} ServedAsSpecified(c: FileConfig, s: Shared, t: nat, calls: seq<Call>)
    requires Settled(c, s)
    ensures var s' := ServeAll(c, s, t, calls);
            Settled(c, s') && TransfersOf(s') == SpecAll(c, TransfersOf(s), s.now, calls)
    decreases |calls|
  {
    hide Settled, TransfersOf, ServeCall, SpecCall;
    if calls != [] {
      CallAsSpecified(c, s, t, calls[0]);
      ServedAsSpecified(c, ServeCall(c, s, t, calls[0]), t, calls[1..]);
    }
  }
}
