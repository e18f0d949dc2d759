/** The file store under concurrency: any number of uploads, deletes and sweeps, one atomic step at a
    time.  Cache-entry operations and successful compare-exchanges are single steps; the write
    transactions of the database are serialised by a lock.  A sweep is a series of deletes. */
module FileProtocol {
  import opened Tables
  import opened FileSpec
  import opened FileStore

  datatype Upload = Upload(id: string, index: nat, totalChunks: nat, totalBytes: nat, data: Bytes)

  /** What all requests share.  `chunks` groups the chunk table by transfer. */
  datatype Shared = Shared(now: nat, metas: map<string, FileMeta>, chunks: map<string, map<nat, Bytes>>,
                           cache: map<string, FileMeta>, reserved: nat, count: nat, lock: Option<nat>)

  /** Where one request stands.  `creating` marks the upload that claimed the id. */
  datatype Pc =
    | Idle
    | Claimed(u: Upload)
    | Waiting(u: Upload, creating: bool)
    | InTxn(u: Upload, creating: bool)
    | Prepared(u: Upload, creating: bool, meta: FileMeta, add: nat, release: nat)
    | Undo(u: Upload, creating: bool, add: nat)
    | Freeing(u: Upload)
    | Unclaim(u: Upload)
    | Committed(u: Upload, meta: FileMeta, release: nat)
    | Mirror(u: Upload, meta: FileMeta)
    | DelWaiting(id: string)
    | DelTxn(id: string)
    | DelDrop(id: string, stored: nat)
    | DelSlot(id: string, stored: nat)
    | DelBytes(id: string, stored: nat)

  datatype State = State(shared: Shared, threads: map<nat, Pc>)

  datatype Action = Tick(ms: nat) | Do(t: nat, request: Request)

  /** A thread takes on an upload or a delete, or takes its next step; `ok` says whether the database
      obliges, where it is asked. */
  datatype Request = Store(u: Upload) | Delete(id: string) | Move(ok: bool)

  // ---------------------------------------------------------------- the steps

  datatype Moved = To(shared: Shared, pc: Pc)

  predicate ShapeOk(c: FileConfig, u: Upload) {
    u.data != [] && u.totalChunks != 0 && u.totalChunks <= c.maxChunks && u.index < u.totalChunks
    && u.totalBytes != 0 && u.totalBytes <= c.maxFileBytes
  }

  function ChunksOf(s: Shared, id: string): map<nat, Bytes> {
    if id in s.chunks then s.chunks[id] else map[]
  }

  function PrevOf(chunks: map<nat, Bytes>, index: nat): nat {
    if index in chunks then |chunks[index]| else 0
  }

  /** The cache entry decides: an occupied one is checked for shape, a vacant one is claimed. */
  function Claim(s: Shared, u: Upload): Moved {
    if u.id in s.cache then
      if s.cache[u.id].totalChunks != u.totalChunks || s.cache[u.id].totalBytes != u.totalBytes then To(s, Idle)
      else To(s, Waiting(u, false))
    else if u.index != 0 then To(s, Idle)
    else To(s.(cache := s.cache[u.id := FileMeta(u.totalChunks, u.totalBytes, 0, 0, s.now)]), Claimed(u))
  }

  function ReserveSlot(c: FileConfig, s: Shared, u: Upload): Moved {
    if s.count >= c.maxTransfers then To(s, Unclaim(u))
    else To(s.(count := s.count + 1), Waiting(u, true))
  }

  /** A failed write: a creation still has its slot and its claim to give back. */
  function AfterFailure(u: Upload, creating: bool): Pc {
    if creating then Freeing(u) else Idle
  }

  function BeginWrite(s: Shared, t: nat, u: Upload, creating: bool, ok: bool): Moved {
    if !ok then To(s, AfterFailure(u, creating))
    else if s.lock.Some? then To(s, Waiting(u, creating))
    else To(s.(lock := Some(t)), InTxn(u, creating))
  }

  /** Read the tables, check the limits and reserve the net increase. */
  function Prepare(c: FileConfig, s: Shared, u: Upload, creating: bool): Moved {
    var failed := To(s.(lock := None), AfterFailure(u, creating));
    if !creating && u.id !in s.metas then failed
    else
      var m := if creating then FileMeta(u.totalChunks, u.totalBytes, 0, 0, s.now) else s.metas[u.id];
      var prev := PrevOf(ChunksOf(s, u.id), u.index);
      var stored := WrapSub(m.storedBytes, prev) + |u.data|;
      if stored > m.totalBytes || stored > c.maxFileBytes then failed
      else
        var add, release := SatSub(|u.data|, prev), SatSub(prev, |u.data|);
        if add > 0 && s.reserved + add > c.maxTotalFileBytes then failed
        else
          var m' := m.(storedBytes := stored, receivedChunks := m.receivedChunks + if prev == 0 then 1 else 0);
          To(s.(reserved := s.reserved + add), Prepared(u, creating, m', add, release))
  }

  function Commit(s: Shared, pc: Pc, ok: bool): Moved
    requires pc.Prepared?
  {
    if !ok then
      To(s.(lock := None), if pc.add > 0 then Undo(pc.u, pc.creating, pc.add) else AfterFailure(pc.u, pc.creating))
    else
      To(s.(lock := None, metas := s.metas[pc.u.id := pc.meta],
            chunks := s.chunks[pc.u.id := ChunksOf(s, pc.u.id)[pc.u.index := pc.u.data]]),
         Committed(pc.u, pc.meta, pc.release))
  }

  /** Advance the cache entry, or insert it when it is gone. */
  function MirrorEntry(cache: map<string, FileMeta>, u: Upload, m: FileMeta): FileMeta {
    var e := if u.id in cache then cache[u.id]
             else FileMeta(u.totalChunks, u.totalBytes, m.storedBytes, m.receivedChunks, m.createdAtMs);
    if m.receivedChunks >= e.receivedChunks then e.(storedBytes := m.storedBytes, receivedChunks := m.receivedChunks)
    else e
  }

  function DeleteBegin(s: Shared, t: nat, id: string, ok: bool): Moved {
    if !ok then To(s, Idle)
    else if s.lock.Some? then To(s, DelWaiting(id))
    else To(s.(lock := Some(t)), DelTxn(id))
  }

  function DeleteCommit(s: Shared, id: string, ok: bool): Moved {
    if !ok then To(s.(lock := None), Idle)
    else
      To(s.(lock := None, metas := s.metas - {id}, chunks := s.chunks - {id}),
         if id in s.metas then DelDrop(id, s.metas[id].storedBytes) else Idle)
  }

  function Step(c: FileConfig, s: Shared, t: nat, pc: Pc, ok: bool): Moved {
    match pc
    case Idle => To(s, Idle)
    case Claimed(u) => ReserveSlot(c, s, u)
    case Waiting(u, creating) => BeginWrite(s, t, u, creating, ok)
    case InTxn(u, creating) => Prepare(c, s, u, creating)
    case Prepared(_, _, _, _, _) => Commit(s, pc, ok)
    case Undo(u, creating, add) => To(s.(reserved := SatSub(s.reserved, add)), AfterFailure(u, creating))
    case Freeing(u) => To(s.(count := WrapSub(s.count, 1)), Unclaim(u))
    case Unclaim(u) => To(s.(cache := s.cache - {u.id}), Idle)
    case Committed(u, m, release) => To(s.(reserved := SatSub(s.reserved, release)), Mirror(u, m))
    case Mirror(u, m) => To(s.(cache := s.cache[u.id := MirrorEntry(s.cache, u, m)]), Idle)
    case DelWaiting(id) => DeleteBegin(s, t, id, ok)
    case DelTxn(id) => DeleteCommit(s, id, ok)
    case DelDrop(id, stored) => To(s.(cache := s.cache - {id}), DelSlot(id, stored))
    case DelSlot(id, stored) => To(s.(count := WrapSub(s.count, 1)), DelBytes(id, stored))
    case DelBytes(_, stored) => To(s.(reserved := SatSub(s.reserved, stored)), Idle)
  }

  /** A busy thread takes on nothing new. */
  function Act(c: FileConfig, s: Shared, t: nat, pc: Pc, r: Request): Moved {
    match r
    case Store(u) => if !pc.Idle? || !ShapeOk(c, u) then To(s, pc) else Claim(s, u)
    case Delete(id) => if !pc.Idle? then To(s, pc) else To(s, DelWaiting(id))
    case Move(ok) => Step(c, s, t, pc, ok)
  }

  function PcOf(s: State, t: nat): Pc {
    if t in s.threads then s.threads[t] else Idle
  }

  function Next(c: FileConfig, s: State, a: Action): State {
    match a
    case Tick(ms) => s.(shared := s.shared.(now := s.shared.now + ms))
    case Do(t, r) => var m := Act(c, s.shared, t, PcOf(s, t), r); State(m.shared, s.threads[t := m.pc])
  }

  function Run(c: FileConfig, s: State, run: seq<Action>): State
    decreases |run|
  {
    if run == [] then s else Run(c, Next(c, s, run[0]), run[1..])
  }

  // ---------------------------------------------------------------- the invariant

  /** Bytes a request holds against the global cap beyond what is committed. */
  function HeldBytes(pc: Pc): nat {
    match pc
    case Prepared(_, _, _, add, _) => add
    case Undo(_, _, add) => add
    case Committed(_, _, release) => release
    case DelDrop(_, stored) => stored
    case DelSlot(_, stored) => stored
    case DelBytes(_, stored) => stored
    case _ => 0
  }

  /** Slots a request holds beyond the committed transfers. */
  function HeldSlots(pc: Pc): nat {
    match pc
    case Waiting(_, creating) => if creating then 1 else 0
    case InTxn(_, creating) => if creating then 1 else 0
    case Prepared(_, creating, _, _, _) => if creating then 1 else 0
    case Undo(_, creating, _) => if creating then 1 else 0
    case Freeing(_) => 1
    case DelDrop(_, _) => 1
    case DelSlot(_, _) => 1
    case _ => 0
  }

  /** The id a request has to itself: an uncommitted creation, or a delete not yet dropped from the cache. */
  function Owner(pc: Pc): Option<string> {
    match pc
    case Claimed(u) => Some(u.id)
    case Waiting(u, creating) => if creating then Some(u.id) else None
    case InTxn(u, creating) => if creating then Some(u.id) else None
    case Prepared(u, creating, _, _, _) => if creating then Some(u.id) else None
    case Undo(u, creating, _) => if creating then Some(u.id) else None
    case Freeing(u) => Some(u.id)
    case Unclaim(u) => Some(u.id)
    case DelDrop(id, _) => Some(id)
    case _ => None
  }

  predicate HoldsLock(pc: Pc) {
    pc.InTxn? || pc.Prepared? || pc.DelTxn?
  }

  ghost predicate Locking(lock: Option<nat>, threads: map<nat, Pc>) {
    && (lock.Some? ==> lock.value in threads)
    && (forall t :: t in threads ==> (HoldsLock(threads[t]) <==> lock == Some(t)))
  }

  /** An owned id is in the cache and not on disk. */
  ghost predicate Claims(s: Shared, pc: Pc) {
    Owner(pc).Some? ==> Owner(pc).value in s.cache && Owner(pc).value !in s.metas
  }

  ghost predicate Exclusive(threads: map<nat, Pc>) {
    forall t, t' :: t in threads && t' in threads && t != t' && Owner(threads[t]).Some? ==>
      Owner(threads[t]) != Owner(threads[t'])
  }

  ghost predicate Owners(s: Shared, threads: map<nat, Pc>) {
    && s.metas.Keys <= s.cache.Keys
    && (forall t :: t in threads ==> Claims(s, threads[t]))
    && Exclusive(threads)
  }

  /** What a metadata row says of the chunks it stands for. */
  ghost predicate RowTrue(c: FileConfig, m: FileMeta, chunks: map<nat, Bytes>) {
    && m.storedBytes == Sum(chunks, Length)
    && m.receivedChunks == |chunks|
    && m.storedBytes <= m.totalBytes <= c.maxFileBytes
    && (forall i :: i in chunks ==> chunks[i] != [])
  }

  ghost predicate Disk(c: FileConfig, s: Shared) {
    && s.chunks.Keys == s.metas.Keys
    && (forall id :: id in s.metas ==> RowTrue(c, s.metas[id], s.chunks[id]))
  }

  /** What a request remembers is true of the tables it read. */
  ghost predicate Remembers(c: FileConfig, s: Shared, pc: Pc) {
    match pc
    case Claimed(u) => ShapeOk(c, u)
    case Waiting(u, _) => ShapeOk(c, u)
    case InTxn(u, _) => ShapeOk(c, u)
    case Prepared(u, creating, m, add, release) =>
      && (creating <==> u.id !in s.metas)
      && RowTrue(c, m, ChunksOf(s, u.id)[u.index := u.data])
      && (if creating then 0 else s.metas[u.id].storedBytes) + add == m.storedBytes + release
    case _ => true
  }

  ghost predicate AllRemember(c: FileConfig, s: Shared, threads: map<nat, Pc>) {
    forall t :: t in threads ==> Remembers(c, s, threads[t])
  }

  ghost predicate Ledgers(s: Shared, threads: map<nat, Pc>) {
    && s.reserved == Sum(s.metas, Stored) + Sum(threads, HeldBytes)
    && s.count == |s.metas| + Sum(threads, HeldSlots)
  }

  ghost predicate Inv(c: FileConfig, s: State) {
    && Locking(s.shared.lock, s.threads)
    && Owners(s.shared, s.threads)
    && Disk(c, s.shared)
    && AllRemember(c, s.shared, s.threads)
    && Ledgers(s.shared, s.threads)
  }

  // ---------------------------------------------------------------- every step keeps it

  /** The lock moves between the acting thread and nobody, and follows where that thread stands. */
  lemma LockStep(c: FileConfig, s: Shared, t: nat, pc: Pc, r: Request)
    requires HoldsLock(pc) <==> s.lock == Some(t)
    ensures var m := Act(c, s, t, pc, r);
            && (HoldsLock(m.pc) <==> m.shared.lock == Some(t))
            && (|| m.shared.lock == s.lock
                || (s.lock == None && m.shared.lock == Some(t)) || (s.lock == Some(t) && m.shared.lock == None))
  {
  }

  lemma LockingPut(lock: Option<nat>, lock': Option<nat>, threads: map<nat, Pc>, t: nat, pc: Pc)
    requires Locking(lock, threads)
    requires HoldsLock(pc) <==> lock' == Some(t)
    requires lock' == lock || (lock == None && lock' == Some(t)) || (lock == Some(t) && lock' == None)
    ensures Locking(lock', threads[t := pc])
  {
  }

  /** A step leaves its own id in the cache and off the disk for as long as it owns it. */
  lemma OwnStep(c: FileConfig, s: Shared, t: nat, pc: Pc, r: Request)
    requires s.metas.Keys <= s.cache.Keys && Claims(s, pc) && Remembers(c, s, pc)
    ensures var m := Act(c, s, t, pc, r); m.shared.metas.Keys <= m.shared.cache.Keys && Claims(m.shared, m.pc)
  {
    hide RowTrue, ShapeOk;
  }

  /** An id in the cache, not on disk and not this thread's own, stays so. */
  lemma OthersStep(c: FileConfig, s: Shared, t: nat, pc: Pc, r: Request, id: string)
    requires Remembers(c, s, pc)
    requires id in s.cache && id !in s.metas && Owner(pc) != Some(id)
    ensures var m := Act(c, s, t, pc, r); id in m.shared.cache && id !in m.shared.metas && Owner(m.pc) != Some(id)
  {
    hide RowTrue, ShapeOk;
  }

  lemma OwnersPut(c: FileConfig, s: Shared, threads: map<nat, Pc>, t: nat, pc: Pc, r: Request)
    requires Owners(s, threads) && AllRemember(c, s, threads) && pc == PcOf(State(s, threads), t)
    ensures var m := Act(c, s, t, pc, r); Owners(m.shared, threads[t := m.pc])
  {
    var m := Act(c, s, t, pc, r);
    OwnStep(c, s, t, pc, r);
    forall o | o in threads && o != t && Owner(threads[o]).Some?
      ensures Claims(m.shared, threads[o]) && Owner(m.pc) != Owner(threads[o])
    {
      OthersStep(c, s, t, pc, r, Owner(threads[o]).value);
    }
    hide Act;
  }

  lemma TablesStep(c: FileConfig, s: Shared, t: nat, pc: Pc, r: Request)
    requires !HoldsLock(pc)
    ensures var m := Act(c, s, t, pc, r); m.shared.metas == s.metas && m.shared.chunks == s.chunks
  {
  }

  lemma DiskStep(c: FileConfig, s: Shared, t: nat, pc: Pc, r: Request)
    requires Disk(c, s) && Remembers(c, s, pc)
    ensures Disk(c, Act(c, s, t, pc, r).shared)
  {
    hide RowTrue, ShapeOk;
    if HoldsLock(pc) {
    } else {
      TablesStep(c, s, t, pc, r);
      hide Act;
    }
  }

  /** Trading a chunk's old bytes for new ones: the plain subtraction does not wrap. */
  lemma ChunkTraded(c: FileConfig, m: FileMeta, chunks: map<nat, Bytes>, index: nat, data: Bytes)
    requires RowTrue(c, m, chunks) && data != []
    ensures var prev := PrevOf(chunks, index);
            && prev <= m.storedBytes
            && (prev == 0 <==> index !in chunks)
            && Sum(chunks[index := data], Length) == m.storedBytes - prev + |data|
            && |chunks[index := data]| == m.receivedChunks + (if prev == 0 then 1 else 0)
  {
    SumUpdate(chunks, Length, index, data);
  }

  lemma NothingStored(c: FileConfig, m: FileMeta)
    requires m.storedBytes == 0 && m.receivedChunks == 0 && m.totalBytes <= c.maxFileBytes
    ensures RowTrue(c, m, map[])
  {
  }

  lemma PrepareRemembers(c: FileConfig, s: Shared, u: Upload, creating: bool)
    requires Disk(c, s) && ShapeOk(c, u) && (creating ==> u.id !in s.metas)
    ensures var m := Prepare(c, s, u, creating); Remembers(c, m.shared, m.pc)
  {
    var m := if u.id in s.metas then s.metas[u.id] else FileMeta(u.totalChunks, u.totalBytes, 0, 0, s.now);
    if u.id !in s.metas { NothingStored(c, m); }
    ChunkTraded(c, m, ChunksOf(s, u.id), u.index, u.data);
    hide Sum;
  }

  lemma RememberStep(c: FileConfig, s: Shared, t: nat, pc: Pc, r: Request)
    requires Disk(c, s) && Claims(s, pc) && Remembers(c, s, pc)
    ensures var m := Act(c, s, t, pc, r); Remembers(c, m.shared, m.pc)
  {
    if pc.InTxn? { PrepareRemembers(c, s, pc.u, pc.creating); }
    hide RowTrue, ShapeOk, Prepare, Disk;
  }

  lemma RemembersPut(c: FileConfig, s: Shared, threads: map<nat, Pc>, t: nat, pc: Pc, r: Request)
    requires Locking(s.lock, threads) && Owners(s, threads) && Disk(c, s) && AllRemember(c, s, threads)
    requires pc == PcOf(State(s, threads), t)
    ensures var m := Act(c, s, t, pc, r); AllRemember(c, m.shared, threads[t := m.pc])
  {
    var m := Act(c, s, t, pc, r);
    RememberStep(c, s, t, pc, r);
    forall o | o in threads && o != t ensures Remembers(c, m.shared, threads[o]) {
      if threads[o].Prepared? {
        TablesStep(c, s, t, pc, r);
      }
    }
    hide Act;
  }

  /** Away from the commits, a step moves bytes and slots between the counters and its own hands. */
  lemma CountersStep(c: FileConfig, s: Shared, t: nat, pc: Pc, r: Request)
    requires s.reserved >= HeldBytes(pc) && s.count >= HeldSlots(pc)
    requires !(r.Move? && r.ok && (pc.Prepared? || pc.DelTxn?))
    ensures var m := Act(c, s, t, pc, r);
            && m.shared.metas == s.metas
            && m.shared.reserved - HeldBytes(m.pc) == s.reserved - HeldBytes(pc)
            && m.shared.count - HeldSlots(m.pc) == s.count - HeldSlots(pc)
  {
  }

  /** A commit moves them between the tables and its own hands. */
  ghost predicate Moves(s: Shared, pc: Pc, m: Moved) {
    && m.shared.reserved == s.reserved && m.shared.count == s.count
    && Sum(m.shared.metas, Stored) + HeldBytes(m.pc) == Sum(s.metas, Stored) + HeldBytes(pc)
    && |m.shared.metas| + HeldSlots(m.pc) == |s.metas| + HeldSlots(pc)
  }

  lemma WriteCommits(c: FileConfig, s: Shared, pc: Pc)
    requires pc.Prepared? && Remembers(c, s, pc)
    ensures Moves(s, pc, Commit(s, pc, true))
  {
    hide Sum, RowTrue;
    SumUpdate(s.metas, Stored, pc.u.id, pc.meta);
  }

  lemma DeleteCommits(s: Shared, id: string)
    ensures Moves(s, DelTxn(id), DeleteCommit(s, id, true))
  {
    hide Sum;
    DeleteOne(s.metas, id);
  }

  lemma CommitStep(c: FileConfig, s: Shared, t: nat, pc: Pc)
    requires Remembers(c, s, pc) && (pc.Prepared? || pc.DelTxn?)
    ensures Moves(s, pc, Act(c, s, t, pc, Move(true)))
  {
    hide Moves, Commit, DeleteCommit;
    if pc.Prepared? {
      WriteCommits(c, s, pc);
    } else {
      DeleteCommits(s, pc.id);
    }
  }

  lemma DeleteOne(metas: map<string, FileMeta>, id: string)
    ensures Sum(metas - {id}, Stored) == Sum(metas, Stored) - (if id in metas then metas[id].storedBytes else 0)
    ensures |metas - {id}| == |metas| - (if id in metas then 1 else 0)
  {
    if id in metas { SumRemove(metas, Stored, id); } else { assert metas - {id} == metas; }
  }

  lemma Held<V(!new)>(threads: map<nat, V>, held: V -> nat, t: nat, pc: V)
    ensures Sum(threads[t := pc], held)
            == Sum(threads, held) - (if t in threads then held(threads[t]) else 0) + held(pc)
    ensures t in threads ==> held(threads[t]) <= Sum(threads, held)
  {
    SumUpdate(threads, held, t, pc);
  }

  lemma LedgersPut(c: FileConfig, s: Shared, threads: map<nat, Pc>, t: nat, pc: Pc, r: Request)
    requires Ledgers(s, threads) && Remembers(c, s, pc) && pc == PcOf(State(s, threads), t)
    ensures var m := Act(c, s, t, pc, r); Ledgers(m.shared, threads[t := m.pc])
  {
    var m := Act(c, s, t, pc, r);
    Held(threads, HeldBytes, t, m.pc);
    Held(threads, HeldSlots, t, m.pc);
    if r.Move? && r.ok && (pc.Prepared? || pc.DelTxn?) {
      CommitStep(c, s, t, pc);
    } else {
      CountersStep(c, s, t, pc, r);
    }
    hide Act, Sum;
  }

  /** One step of any thread, or of the clock, keeps the whole invariant. */
  lemma InvKept(c: FileConfig, s: State, a: Action)
    requires Inv(c, s)
    ensures Inv(c, Next(c, s, a))
  {
    if a.Do? {
      var pc := PcOf(s, a.t);
      assert Claims(s.shared, pc) && Remembers(c, s.shared, pc) && (HoldsLock(pc) <==> s.shared.lock == Some(a.t));
      LockStep(c, s.shared, a.t, pc, a.request);
      var m := Act(c, s.shared, a.t, pc, a.request);
      LockingPut(s.shared.lock, m.shared.lock, s.threads, a.t, m.pc);
      OwnersPut(c, s.shared, s.threads, a.t, pc, a.request);
      DiskStep(c, s.shared, a.t, pc, a.request);
      RemembersPut(c, s.shared, s.threads, a.t, pc, a.request);
      LedgersPut(c, s.shared, s.threads, a.t, pc, a.request);
      hide Act, Locking, Owners, Disk, AllRemember, Ledgers;
    }
  }

  // ---------------------------------------------------------------- every run, every interleaving

  /** A store just opened: nobody at work, the cache and the counters as scanned from the tables. */
  ghost predicate Opened(c: FileConfig, s: State) {
    && s.threads == map[] && s.shared.lock == None
    && s.shared.cache == s.shared.metas
    && s.shared.reserved == Sum(s.shared.metas, Stored) && s.shared.count == |s.shared.metas|
    && Disk(c, s.shared)
  }

  lemma OpenedInv(c: FileConfig, s: State)
    requires Opened(c, s)
    ensures Inv(c, s)
  {
  }

  lemma CapsStep(c: FileConfig, s: Shared, t: nat, pc: Pc, r: Request)
    requires s.count >= HeldSlots(pc)
    ensures var m := Act(c, s, t, pc, r);
            m.shared.reserved <= Max(s.reserved, c.maxTotalFileBytes) && m.shared.count <= Max(s.count, c.maxTransfers)
  {
  }

  lemma {:induction false} RunInv(c: FileConfig, s: State, run: seq<Action>)
    requires Inv(c, s)
    ensures Inv(c, Run(c, s, run))
    ensures Run(c, s, run).shared.reserved <= Max(s.shared.reserved, c.maxTotalFileBytes)
    ensures Run(c, s, run).shared.count <= Max(s.shared.count, c.maxTransfers)
    decreases |run|
  {
    hide Inv, Act;
    if run != [] {
      InvKept(c, s, run[0]);
      if run[0].Do? {
        var pc := PcOf(s, run[0].t);
        HeldInCounter(c, s, run[0].t);
        CapsStep(c, s.shared, run[0].t, pc, run[0].request);
      }
      RunInv(c, Next(c, s, run[0]), run[1..]);
    }
  }

  lemma HeldInCounter(c: FileConfig, s: State, t: nat)
    requires Inv(c, s)
    ensures HeldBytes(PcOf(s, t)) <= s.shared.reserved - Sum(s.shared.metas, Stored)
    ensures HeldSlots(PcOf(s, t)) <= s.shared.count - |s.shared.metas|
  {
    Held(s.threads, HeldBytes, t, Idle);
    Held(s.threads, HeldSlots, t, Idle);
  }

  /** The byte counter is what is committed plus what is reserved or freed but not yet settled, so the
      cap binds what is on disk and no release saturates. */
  lemma BytesAccounted(c: FileConfig, s0: State, run: seq<Action>)
    requires Opened(c, s0)
    ensures var s := Run(c, s0, run);
            && s.shared.reserved == Sum(s.shared.metas, Stored) + Sum(s.threads, HeldBytes)
            && Sum(s.shared.metas, Stored) <= Max(Sum(s0.shared.metas, Stored), c.maxTotalFileBytes)
            && (forall t :: t in s.threads ==> HeldBytes(s.threads[t]) <= s.shared.reserved)
  {
    OpenedInv(c, s0);
    RunInv(c, s0, run);
    var s := Run(c, s0, run);
    forall t | t in s.threads ensures HeldBytes(s.threads[t]) <= s.shared.reserved {
      HeldInCounter(c, s, t);
    }
  }

  /** The slot counter is the transfers on disk plus the slots of creations and of unsettled deletes; it
      never wraps and never passes the limit. */
  lemma SlotsAccounted(c: FileConfig, s0: State, run: seq<Action>)
    requires Opened(c, s0)
    ensures var s := Run(c, s0, run);
            && s.shared.count == |s.shared.metas| + Sum(s.threads, HeldSlots)
            && |s.shared.metas| <= s.shared.count <= Max(|s0.shared.metas|, c.maxTransfers)
            && (forall t :: t in s.threads ==> HeldSlots(s.threads[t]) <= s.shared.count)
  {
    OpenedInv(c, s0);
    RunInv(c, s0, run);
    var s := Run(c, s0, run);
    forall t | t in s.threads ensures HeldSlots(s.threads[t]) <= s.shared.count {
      HeldInCounter(c, s, t);
    }
  }

  /** Of an id at most one holds: one request owns it, or it is on disk; either way the cache has it.  So
      the first chunk of a new transfer never lands on committed data. */
  lemma IdsExclusive(c: FileConfig, s0: State, run: seq<Action>)
    requires Opened(c, s0)
    ensures var s := Run(c, s0, run);
            && s.shared.metas.Keys <= s.shared.cache.Keys
            && (forall t :: t in s.threads && Owner(s.threads[t]).Some? ==>
                  var id := Owner(s.threads[t]).value;
                  && id in s.shared.cache && id !in s.shared.metas && id !in s.shared.chunks
                  && (forall t' :: t' in s.threads && t' != t ==> Owner(s.threads[t']) != Some(id)))
  {
    OpenedInv(c, s0);
    RunInv(c, s0, run);
  }

  /** In every committed state each row tells the truth about its chunks and stays within what was
      declared, and a replacement of any size subtracts no more than is there. */
  lemma RowsTrue(c: FileConfig, s0: State, run: seq<Action>)
    requires Opened(c, s0)
    ensures var s := Run(c, s0, run).shared;
            && s.chunks.Keys == s.metas.Keys
            && (forall id :: id in s.metas ==>
                  && s.metas[id].storedBytes == Sum(s.chunks[id], Length) <= s.metas[id].totalBytes <= c.maxFileBytes
                  && s.metas[id].receivedChunks == |s.chunks[id]|
                  && (forall i :: i in s.chunks[id] ==> 0 < PrevOf(s.chunks[id], i) <= s.metas[id].storedBytes))
  {
    OpenedInv(c, s0);
    RunInv(c, s0, run);
    var s := Run(c, s0, run).shared;
    forall id, i | id in s.metas && i in s.chunks[id]
      ensures 0 < PrevOf(s.chunks[id], i) <= s.metas[id].storedBytes
    {
      ChunkTraded(c, s.metas[id], s.chunks[id], i, [0]);
    }
  }

  // ---------------------------------------------------------------- entries that outlive their transfer

  /** In the cache for nobody: not on disk, and no request is creating or deleting it. */
  ghost predicate Stray(s: State, id: string) {
    && id in s.shared.cache && id !in s.shared.metas
    && (forall t :: t in s.threads ==> Owner(s.threads[t]) != Some(id))
  }

  /** The step that mirrors a commit into the cache finds the entry gone, and inserts it. */
  predicate LateMirror(s: State, a: Action) {
    a.Do? && a.request.Move? && PcOf(s, a.t).Mirror? && PcOf(s, a.t).u.id !in s.shared.cache
  }

  function LateIds(c: FileConfig, s: State, run: seq<Action>): set<string>
    decreases |run|
  {
    if run == [] then {}
    else (if LateMirror(s, run[0]) then {PcOf(s, run[0].t).u.id} else {}) + LateIds(c, Next(c, s, run[0]), run[1..])
  }

  ghost predicate Loose(s: Shared, pc: Pc, id: string) {
    id in s.cache && id !in s.metas && Owner(pc) != Some(id)
  }

  ghost predicate NobodyElse(threads: map<nat, Pc>, t: nat, id: string) {
    forall o :: o in threads && o != t ==> Owner(threads[o]) != Some(id)
  }

  lemma StrayFor(s: State, t: nat, id: string)
    ensures Stray(s, id) <==> Loose(s.shared, PcOf(s, t), id) && NobodyElse(s.threads, t, id)
  {
  }

  lemma TightAct(c: FileConfig, s: Shared, t: nat, pc: Pc, r: Request, id: string)
    requires Claims(s, pc) && Remembers(c, s, pc) && s.metas.Keys <= s.cache.Keys && !Loose(s, pc, id)
    ensures var m := Act(c, s, t, pc, r);
            Loose(m.shared, m.pc, id) <==> r.Move? && pc.Mirror? && pc.u.id == id && id !in s.cache
  {
    hide RowTrue, ShapeOk;
  }

  lemma LooseAct(c: FileConfig, s: Shared, t: nat, pc: Pc, r: Request, id: string)
    requires Claims(s, pc) && Remembers(c, s, pc) && s.metas.Keys <= s.cache.Keys
    ensures var m := Act(c, s, t, pc, r);
            Loose(m.shared, m.pc, id) <==>
              Loose(s, pc, id) || (r.Move? && pc.Mirror? && pc.u.id == id && id !in s.cache)
  {
    if Loose(s, pc, id) {
      OthersStep(c, s, t, pc, r, id);
      hide Act, Remembers;
    } else {
      TightAct(c, s, t, pc, r, id);
      hide Act, Remembers;
    }
  }

  /** Stray entries are never cleared, and only a late mirror makes one. */
  lemma StrayStep(c: FileConfig, s: State, a: Action, id: string)
    requires Inv(c, s)
    ensures Stray(Next(c, s, a), id) <==> Stray(s, id) || (LateMirror(s, a) && PcOf(s, a.t).u.id == id)
  {
    if a.Do? {
      var pc := PcOf(s, a.t);
      assert Claims(s.shared, pc) && Remembers(c, s.shared, pc);
      LooseAct(c, s.shared, a.t, pc, a.request, id);
      StrayFor(s, a.t, id);
      StrayFor(Next(c, s, a), a.t, id);
      SameOthers(s.threads, a.t, Act(c, s.shared, a.t, pc, a.request).pc, id);
      if id !in s.shared.cache { NobodyOwns(s, a.t, id); }
      hide Act, Loose, Stray, NobodyElse, Inv;
    } else {
      hide Inv;
    }
  }

  lemma SameOthers(threads: map<nat, Pc>, t: nat, pc: Pc, id: string)
    ensures NobodyElse(threads[t := pc], t, id) <==> NobodyElse(threads, t, id)
  {
    if NobodyElse(threads[t := pc], t, id) {
      forall o | o in threads && o != t ensures Owner(threads[o]) != Some(id) {
        assert threads[t := pc][o] == threads[o];
      }
    }
  }

  lemma NobodyOwns(s: State, t: nat, id: string)
    requires Owners(s.shared, s.threads) && id !in s.shared.cache
    ensures NobodyElse(s.threads, t, id)
  {
  }

  lemma {:induction false} StrayRun(c: FileConfig, s: State, run: seq<Action>, id: string)
    requires Inv(c, s)
    ensures Stray(Run(c, s, run), id) <==> Stray(s, id) || id in LateIds(c, s, run)
    decreases |run|
  {
    hide Inv, Stray, Next;
    if run != [] {
      InvKept(c, s, run[0]);
      StrayStep(c, s, run[0], id);
      StrayRun(c, Next(c, s, run[0]), run[1..], id);
    }
  }

  ghost predicate Quiet(s: State) {
    forall t :: t in s.threads ==> s.threads[t].Idle?
  }

  /** Once every request is answered, the cache names the transfers on disk and those a late mirror
      brought back: it matches the disk exactly when the run had no late mirror. */
  lemma CacheMatchesUnlessLate(c: FileConfig, s0: State, run: seq<Action>)
    requires Opened(c, s0) && Quiet(Run(c, s0, run))
    ensures var s := Run(c, s0, run).shared;
            && s.cache.Keys == s.metas.Keys + LateIds(c, s0, run)
            && s.metas.Keys !! LateIds(c, s0, run)
            && (s.cache.Keys == s.metas.Keys <==> LateIds(c, s0, run) == {})
  {
    OpenedInv(c, s0);
    RunInv(c, s0, run);
    var s, late := Run(c, s0, run), LateIds(c, s0, run);
    forall id ensures Stray(s, id) <==> id in late {
      StrayRun(c, s0, run, id);
    }
    assert forall id :: id in late <==> id in s.shared.cache && id !in s.shared.metas by {
      forall id ensures id in late <==> id in s.shared.cache && id !in s.shared.metas {
        assert Stray(s, id) <==> id in late;
      }
    }
    hide Run, LateIds, Inv, Stray;
    KeysSplit(s.shared.cache.Keys, s.shared.metas.Keys, late);
  }

  lemma KeysSplit(all: set<string>, some: set<string>, rest: set<string>)
    requires some <= all && forall id :: id in rest <==> id in all && id !in some
    ensures all == some + rest && some !! rest && (all == some <==> rest == {})
  {
  }

  /** A stray entry lasts until the next restart: whatever is asked, its id is not stored again. */
  lemma StrayForever(c: FileConfig, s0: State, before: seq<Action>, after: seq<Action>, id: string)
    requires Opened(c, s0) && id in LateIds(c, s0, before)
    ensures var s := Run(c, Run(c, s0, before), after).shared; id in s.cache && id !in s.metas && id !in s.chunks
  {
    OpenedInv(c, s0);
    RunInv(c, s0, before);
    StrayRun(c, s0, before, id);
    RunInv(c, Run(c, s0, before), after);
    StrayRun(c, Run(c, s0, before), after, id);
  }
}
