/** Runs of the file store that show where the cache and the disk part. */
module FileRuns {
  import opened Tables
  import opened FileSpec
  import opened FileStore
  import opened FileProtocol

  // ---------------------------------------------------------------- one thread at a time

  function Times(a: Action, n: nat): seq<Action> {
    if n == 0 then [] else [a] + Times(a, n - 1)
  }

  /** A request, or the next step of one, and `n` undisturbed steps after it. */
  function Piece(t: nat, r: Request, n: nat): seq<Action> {
    [Do(t, r)] + Times(Do(t, Move(true)), n)
  }

  /** `n` steps of one thread with nobody in between. */
  function Solo(c: FileConfig, s: Shared, t: nat, pc: Pc, n: nat): Moved
    decreases n
  {
    if n == 0 then To(s, pc) else var m := Step(c, s, t, pc, true); Solo(c, m.shared, t, m.pc, n - 1)
  }

  /** Where a thread standing at `pc` comes to by a piece. */
  function Alone(c: FileConfig, s: Shared, t: nat, pc: Pc, r: Request, n: nat): Moved {
    var m := Act(c, s, t, pc, r);
    Solo(c, m.shared, t, m.pc, n)
  }

  lemma RunPiece(c: FileConfig, s: State, t: nat, r: Request, n: nat, rest: seq<Action>)
    ensures var m := Alone(c, s.shared, t, PcOf(s, t), r, n);
            Run(c, s, Piece(t, r, n) + rest) == Run(c, State(m.shared, s.threads[t := m.pc]), rest)
    decreases n
  {
    hide Act, Step;
    var s1 := Next(c, s, Do(t, r));
    var tail := Times(Do(t, Move(true)), n) + rest;
    assert (Piece(t, r, n) + rest)[1..] == tail;
    if n > 0 {
      assert tail == Piece(t, Move(true), n - 1) + rest;
      MoveIsStep(c, s1.shared, t, PcOf(s1, t));
      RunPiece(c, s1, t, Move(true), n - 1, rest);
      var m := Act(c, s.shared, t, PcOf(s, t), r);
      var m' := Alone(c, s.shared, t, PcOf(s, t), r, n);
      assert s.threads[t := m.pc][t := m'.pc] == s.threads[t := m'.pc];
    } else {
      assert tail == rest;
    }
  }

  /** The same, in terms of where the threads stand. */
  lemma Goes(c: FileConfig, s: State, t: nat, r: Request, n: nat, rest: seq<Action>, to: Moved) returns (s': State)
    requires Alone(c, s.shared, t, PcOf(s, t), r, n) == to
    ensures Run(c, s, Piece(t, r, n) + rest) == Run(c, s', rest)
    ensures s'.shared == to.shared && PcOf(s', t) == to.pc && forall o :: o != t ==> PcOf(s', o) == PcOf(s, o)
  {
    RunPiece(c, s, t, r, n, rest);
    s' := State(to.shared, s.threads[t := to.pc]);
  }

  lemma NothingLeft(c: FileConfig, s: State)
    ensures Run(c, s, []) == s
    ensures (forall t :: PcOf(s, t).Idle?) ==> Quiet(s)
  {
    if forall t :: PcOf(s, t).Idle? {
      forall t | t in s.threads ensures s.threads[t].Idle? { assert PcOf(s, t).Idle?; }
    }
  }

  lemma MoveIsStep(c: FileConfig, s: Shared, t: nat, pc: Pc)
    ensures Act(c, s, t, pc, Move(true)) == Step(c, s, t, pc, true)
  {
  }

  lemma SoloFive(c: FileConfig, m0: Moved, m1: Moved, m2: Moved, m3: Moved, m4: Moved, m5: Moved, t: nat)
    requires m1 == Step(c, m0.shared, t, m0.pc, true) && m2 == Step(c, m1.shared, t, m1.pc, true)
    requires m3 == Step(c, m2.shared, t, m2.pc, true) && m4 == Step(c, m3.shared, t, m3.pc, true)
    requires m5 == Step(c, m4.shared, t, m4.pc, true)
    ensures Solo(c, m0.shared, t, m0.pc, 5) == m5
  {
    hide Step;
    assert Solo(c, m3.shared, t, m3.pc, 2) == m5;
  }

  function FirstRow(u: Upload, now: nat): FileMeta { FileMeta(u.totalChunks, u.totalBytes, |u.data|, 1, now) }

  function AfterFirst(s: Shared, u: Upload): Shared {
    var first: map<nat, Bytes> := map[u.index := u.data];
    s.(metas := s.metas[u.id := FirstRow(u, s.now)], chunks := s.chunks[u.id := first],
       cache := s.cache[u.id := FileMeta(u.totalChunks, u.totalBytes, 0, 0, s.now)],
       reserved := s.reserved + |u.data|, count := s.count + 1)
  }

  /** A first chunk that fits, up to the moment its commit is to be mirrored. */
  lemma FirstChunkAlone(c: FileConfig, s: Shared, t: nat, u: Upload)
    requires s.lock == None && ShapeOk(c, u) && u.index == 0 && |u.data| <= u.totalBytes
    requires s.reserved + |u.data| <= c.maxTotalFileBytes && s.count < c.maxTransfers
    requires u.id !in s.cache && u.id !in s.chunks
    ensures Alone(c, s, t, Idle, Store(u), 5) == To(AfterFirst(s, u), Mirror(u, FirstRow(u, s.now)))
  {
    var m0 := Act(c, s, t, Idle, Store(u));
    var m1 := Step(c, m0.shared, t, m0.pc, true);
    var m2 := Step(c, m1.shared, t, m1.pc, true);
    var m3 := Step(c, m2.shared, t, m2.pc, true);
    var m4 := Step(c, m3.shared, t, m3.pc, true);
    var m5 := Step(c, m4.shared, t, m4.pc, true);
    assert m3.pc == Prepared(u, true, FirstRow(u, s.now), |u.data|, 0);
    SoloFive(c, m0, m1, m2, m3, m4, m5, t);
  }

  function AfterDelete(s: Shared, id: string): Shared
    requires id in s.metas
  {
    s.(metas := s.metas - {id}, chunks := s.chunks - {id}, cache := s.cache - {id},
       reserved := SatSub(s.reserved, s.metas[id].storedBytes), count := SatSub(s.count, 1))
  }

  /** A delete of a transfer that is there, from the request to its answer. */
  lemma DeleteAlone(c: FileConfig, s: Shared, t: nat, id: string)
    requires s.lock == None && id in s.metas && s.count >= 1
    ensures Alone(c, s, t, Idle, Delete(id), 5) == To(AfterDelete(s, id), Idle)
  {
    var m0 := Act(c, s, t, Idle, Delete(id));
    var m1 := Step(c, m0.shared, t, m0.pc, true);
    var m2 := Step(c, m1.shared, t, m1.pc, true);
    var m3 := Step(c, m2.shared, t, m2.pc, true);
    var m4 := Step(c, m3.shared, t, m3.pc, true);
    var m5 := Step(c, m4.shared, t, m4.pc, true);
    SoloFive(c, m0, m1, m2, m3, m4, m5, t);
  }

  /** The last step of an upload: its row goes into the cache. */
  lemma MirrorAlone(c: FileConfig, s: Shared, t: nat, u: Upload, m: FileMeta)
    ensures Alone(c, s, t, Mirror(u, m), Move(true), 0) ==
            To(s.(cache := s.cache[u.id := MirrorEntry(s.cache, u, m)]), Idle)
  {
  }

  function NextRow(s: Shared, u: Upload): FileMeta
    requires u.id in s.metas
  {
    var m := s.metas[u.id];
    m.(storedBytes := m.storedBytes + |u.data|, receivedChunks := m.receivedChunks + 1)
  }

  function AfterAdd(s: Shared, u: Upload): Shared
    requires u.id in s.metas && u.id in s.chunks
  {
    var chunks: map<nat, Bytes> := s.chunks[u.id][u.index := u.data];
    s.(metas := s.metas[u.id := NextRow(s, u)], chunks := s.chunks[u.id := chunks], reserved := s.reserved + |u.data|)
  }

  predicate RoomFor(c: FileConfig, s: Shared, u: Upload) {
    && s.lock == None && u.data != [] && u.id in s.metas && u.id in s.chunks && u.index !in s.chunks[u.id]
    && s.metas[u.id].storedBytes + |u.data| <= Min(s.metas[u.id].totalBytes, c.maxFileBytes)
    && s.reserved + |u.data| <= c.maxTotalFileBytes
  }

  /** A further chunk that fits, from the wait for the lock to the moment its commit is to be mirrored. */
  lemma FurtherChunkAlone(c: FileConfig, s: Shared, t: nat, u: Upload)
    requires RoomFor(c, s, u)
    ensures Solo(c, s, t, Waiting(u, false), 4) == To(AfterAdd(s, u), Mirror(u, NextRow(s, u)))
  {
    var m1 := Step(c, s, t, Waiting(u, false), true);
    var m2 := Step(c, m1.shared, t, m1.pc, true);
    assert m2.pc == Prepared(u, false, NextRow(s, u), |u.data|, 0);
    var m3 := Step(c, m2.shared, t, m2.pc, true);
    var m4 := Step(c, m3.shared, t, m3.pc, true);
    assert Solo(c, m2.shared, t, m2.pc, 2) == m4;
    hide Step;
  }

  function EmptyStore(): State {
    State(Shared(0, map[], map[], map[], 0, 0, None), map[])
  }

  /** A first chunk for an empty store. */
  predicate Opens(c: FileConfig, u: Upload) {
    && ShapeOk(c, u) && u.index == 0 && |u.data| <= u.totalBytes
    && |u.data| <= c.maxTotalFileBytes && 0 < c.maxTransfers
  }

  // ---------------------------------------------------------------- a deleted transfer comes back

  /** An upload up to its mirror, another request from beginning to end, then the mirror. */
  function Overtaken(u: Upload, r: Request): seq<Action> {
    Piece(0, Store(u), 5) + (Piece(1, r, 5) + (Piece(0, Move(true), 0) + []))
  }

  lemma OvertakenEnds(c: FileConfig, u: Upload, r: Request, sh2: Shared)
    requires Opens(c, u) && Alone(c, AfterFirst(EmptyStore().shared, u), 1, Idle, r, 5) == To(sh2, Idle)
    ensures var s := Run(c, EmptyStore(), Overtaken(u, r));
            s.shared == sh2.(cache := sh2.cache[u.id := MirrorEntry(sh2.cache, u, FirstRow(u, 0))]) && Quiet(s)
  {
    var s0 := EmptyStore();
    FirstChunkAlone(c, s0.shared, 0, u);
    MirrorAlone(c, sh2, 0, u, FirstRow(u, 0));
    hide Alone, Run, Quiet, MirrorEntry, AfterFirst, Piece, FirstRow;
    var last := Piece(0, Move(true), 0) + [];
    var s1 := Goes(c, s0, 0, Store(u), 5, Piece(1, r, 5) + last,
                   To(AfterFirst(s0.shared, u), Mirror(u, FirstRow(u, 0))));
    var s2 := Goes(c, s1, 1, r, 5, last, To(sh2, Idle));
    var s3 := Goes(c, s2, 0, Move(true), 0, [],
                   To(sh2.(cache := sh2.cache[u.id := MirrorEntry(sh2.cache, u, FirstRow(u, 0))]), Idle));
    NothingLeft(c, s3);
  }

  /** Late mirrors do happen: an upload is deleted between its commit and its mirror.  Everybody is
      answered, nothing is on disk, and the cache still names the transfer. */
  lemma DeletedTransferReturns(c: FileConfig, u: Upload)
    requires Opens(c, u)
    ensures Opened(c, EmptyStore())
    ensures var s := Run(c, EmptyStore(), Overtaken(u, Delete(u.id)));
            Quiet(s) && s.shared.metas == map[] && u.id in s.shared.cache
  {
    var sh1 := AfterFirst(EmptyStore().shared, u);
    DeleteAlone(c, sh1, 1, u.id);
    assert AfterDelete(sh1, u.id).metas == map[];
    hide Alone, Run, Quiet;
    OvertakenEnds(c, u, Delete(u.id), AfterDelete(sh1, u.id));
  }

  // ---------------------------------------------------------------- the cached byte count goes stale

  function AfterReplace(s: Shared, u: Upload): Shared
    requires u.id in s.metas && u.id in s.cache && u.id in s.chunks && u.index in s.chunks[u.id]
  {
    var prev := |s.chunks[u.id][u.index]|;
    var row := s.metas[u.id].(storedBytes := SatSub(s.metas[u.id].storedBytes, prev) + |u.data|);
    var chunks: map<nat, Bytes> := s.chunks[u.id][u.index := u.data];
    s.(metas := s.metas[u.id := row], chunks := s.chunks[u.id := chunks],
       cache := s.cache[u.id := s.cache[u.id].(storedBytes := row.storedBytes, receivedChunks := row.receivedChunks)],
       reserved := SatSub(s.reserved, SatSub(prev, |u.data|)))
  }

  /** A smaller replacement of a chunk that is there, from the request to its answer. */
  lemma ReplaceAlone(c: FileConfig, s: Shared, t: nat, u: Upload)
    requires s.lock == None && ShapeOk(c, u)
    requires u.id in s.cache && u.id in s.metas && u.id in s.chunks && u.index in s.chunks[u.id]
    requires s.cache[u.id].totalChunks == u.totalChunks && s.cache[u.id].totalBytes == u.totalBytes
    requires 1 <= |u.data| <= |s.chunks[u.id][u.index]| <= s.metas[u.id].storedBytes
    requires s.metas[u.id].storedBytes <= Min(s.metas[u.id].totalBytes, c.maxFileBytes)
    requires s.cache[u.id].receivedChunks <= s.metas[u.id].receivedChunks
    ensures Alone(c, s, t, Idle, Store(u), 5) == To(AfterReplace(s, u), Idle)
  {
    var m0 := Act(c, s, t, Idle, Store(u));
    var m1 := Step(c, m0.shared, t, m0.pc, true);
    var m2 := Step(c, m1.shared, t, m1.pc, true);
    var m3 := Step(c, m2.shared, t, m2.pc, true);
    var m4 := Step(c, m3.shared, t, m3.pc, true);
    var m5 := Step(c, m4.shared, t, m4.pc, true);
    SoloFive(c, m0, m1, m2, m3, m4, m5, t);
  }

  /** The cached byte count is not kept: a smaller replacement overtakes the upload it replaces on the way
      to the cache, and both count the same number of chunks. */
  lemma CachedBytesGoStale(c: FileConfig, u: Upload, v: Upload)
    requires Opens(c, u) && v == u.(data := v.data) && 1 <= |v.data| < |u.data|
    ensures Opened(c, EmptyStore())
    ensures var s := Run(c, EmptyStore(), Overtaken(u, Store(v)));
            && Quiet(s) && u.id in s.shared.metas && u.id in s.shared.cache
            && s.shared.metas[u.id].storedBytes == |v.data| && s.shared.cache[u.id].storedBytes == |u.data|
  {
    var sh1 := AfterFirst(EmptyStore().shared, u);
    ReplaceAlone(c, sh1, 1, v);
    hide Alone, Run, Quiet;
    OvertakenEnds(c, u, Store(v), AfterReplace(sh1, v));
  }

  // ---------------------------------------------------------------- the cached chunk count runs ahead

  function Mirrored(s: Shared, u: Upload, m: FileMeta): Shared {
    s.(cache := s.cache[u.id := MirrorEntry(s.cache, u, m)])
  }

  /** A second chunk of the transfer `u` creates. */
  predicate Second(c: FileConfig, u: Upload, v: Upload) {
    && ShapeOk(c, v) && v.id == u.id && v.index != u.index
    && v.totalChunks == u.totalChunks && v.totalBytes == u.totalBytes
    && |u.data| + |v.data| <= Min(u.totalBytes, c.maxTotalFileBytes)
  }

  /** Two chunks are committed; before either is mirrored, the transfer is deleted and created again. */
  function Recreated(u: Upload, v: Upload): seq<Action> {
    Piece(0, Store(u), 5) + (Piece(1, Store(v), 4) + DeletedAndRecreated(u))
  }

  function Mirrors(): seq<Action> {
    Piece(1, Move(true), 0) + (Piece(0, Move(true), 0) + (Piece(2, Move(true), 0) + []))
  }

  function TwoStored(u: Upload, v: Upload): Shared
    requires v.id == u.id
  {
    AfterAdd(AfterFirst(EmptyStore().shared, u), v)
  }

  function OneStored(u: Upload, v: Upload): Shared
    requires v.id == u.id
  {
    AfterFirst(AfterDelete(TwoStored(u, v), u.id), u)
  }

  lemma SecondChunkAlone(c: FileConfig, u: Upload, v: Upload)
    requires Opens(c, u) && Second(c, u, v)
    ensures var s := AfterFirst(EmptyStore().shared, u);
            Alone(c, s, 1, Idle, Store(v), 4) == To(TwoStored(u, v), Mirror(v, NextRow(s, v)))
  {
    var s := AfterFirst(EmptyStore().shared, u);
    FurtherChunkAlone(c, s, 1, v);
    assert Act(c, s, 1, Idle, Store(v)) == To(s, Waiting(v, false));
    hide Solo, Act;
  }

  lemma RecreateAlone(c: FileConfig, u: Upload, v: Upload)
    requires Opens(c, u) && Second(c, u, v)
    ensures Alone(c, TwoStored(u, v), 2, Idle, Delete(u.id), 5) == To(AfterDelete(TwoStored(u, v), u.id), Idle)
    ensures Alone(c, AfterDelete(TwoStored(u, v), u.id), 2, Idle, Store(u), 5)
            == To(OneStored(u, v), Mirror(u, FirstRow(u, 0)))
  {
    DeleteAlone(c, TwoStored(u, v), 2, u.id);
    FirstChunkAlone(c, AfterDelete(TwoStored(u, v), u.id), 2, u);
    hide Solo, Act;
  }

  lemma MirrorsInARow(c: FileConfig, s: State, u: Upload, v: Upload, row: FileMeta, again: FileMeta)
    requires PcOf(s, 0) == Mirror(u, row) && PcOf(s, 1) == Mirror(v, again) && PcOf(s, 2) == Mirror(u, row)
    requires forall t :: t > 2 ==> PcOf(s, t).Idle?
    ensures var s' := Run(c, s, Mirrors());
            Quiet(s') && s'.shared == Mirrored(Mirrored(Mirrored(s.shared, v, again), u, row), u, row)
  {
    var sh1 := Mirrored(s.shared, v, again);
    var sh2 := Mirrored(sh1, u, row);
    MirrorAlone(c, s.shared, 1, v, again);
    MirrorAlone(c, sh1, 0, u, row);
    MirrorAlone(c, sh2, 2, u, row);
    assert Mirrors() == Piece(1, Move(true), 0) + (Piece(0, Move(true), 0) + (Piece(2, Move(true), 0) + []));
    hide Alone, Run, Piece, Quiet, MirrorEntry;
    var last := Piece(2, Move(true), 0) + [];
    var s1 := Goes(c, s, 1, Move(true), 0, Piece(0, Move(true), 0) + last, To(sh1, Idle));
    var s2 := Goes(c, s1, 0, Move(true), 0, last, To(sh2, Idle));
    var s3 := Goes(c, s2, 2, Move(true), 0, [], To(Mirrored(sh2, u, row), Idle));
    assert forall t :: PcOf(s3, t).Idle?;
    NothingLeft(c, s3);
  }

  lemma RecreatePieces(c: FileConfig, u: Upload, v: Upload)
    requires Opens(c, u) && Second(c, u, v)
    ensures var s, sh1 := EmptyStore().shared, AfterFirst(EmptyStore().shared, u);
            && Alone(c, s, 0, Idle, Store(u), 5) == To(sh1, Mirror(u, FirstRow(u, 0)))
            && Alone(c, sh1, 1, Idle, Store(v), 4) == To(TwoStored(u, v), Mirror(v, NextRow(sh1, v)))
            && Alone(c, TwoStored(u, v), 2, Idle, Delete(u.id), 5) == To(AfterDelete(TwoStored(u, v), u.id), Idle)
            && Alone(c, AfterDelete(TwoStored(u, v), u.id), 2, Idle, Store(u), 5)
               == To(OneStored(u, v), Mirror(u, FirstRow(u, 0)))
  {
    FirstChunkAlone(c, EmptyStore().shared, 0, u);
    SecondChunkAlone(c, u, v);
    RecreateAlone(c, u, v);
    hide Alone;
  }

  lemma StoredThere(u: Upload, v: Upload)
    requires v.id == u.id
    ensures v.id in AfterFirst(EmptyStore().shared, u).metas && u.id in TwoStored(u, v).metas
  {
  }

  function DeletedAndRecreated(u: Upload): seq<Action> {
    Piece(2, Delete(u.id), 5) + (Piece(2, Store(u), 5) + Mirrors())
  }

  lemma TwoUploads(c: FileConfig, u: Upload, v: Upload) returns (s2: State)
    requires Opens(c, u) && Second(c, u, v)
    ensures var sh1 := AfterFirst(EmptyStore().shared, u);
            && v.id in sh1.metas
            && Run(c, EmptyStore(), Recreated(u, v)) == Run(c, s2, DeletedAndRecreated(u))
            && s2.shared == TwoStored(u, v) && (forall t :: t >= 2 ==> PcOf(s2, t).Idle?)
            && PcOf(s2, 0) == Mirror(u, FirstRow(u, 0)) && PcOf(s2, 1) == Mirror(v, NextRow(sh1, v))
  {
    RecreatePieces(c, u, v);
    StoredThere(u, v);
    hide Alone, Run, Piece, Mirrors, AfterFirst, AfterAdd, TwoStored, NextRow, FirstRow, Opens, Second;
    var s0, sh1 := EmptyStore(), AfterFirst(EmptyStore().shared, u);
    var rest := DeletedAndRecreated(u);
    var s1 := Goes(c, s0, 0, Store(u), 5, Piece(1, Store(v), 4) + rest, To(sh1, Mirror(u, FirstRow(u, 0))));
    s2 := Goes(c, s1, 1, Store(v), 4, rest, To(TwoStored(u, v), Mirror(v, NextRow(sh1, v))));
  }

  lemma ThenRecreated(c: FileConfig, s2: State, u: Upload, v: Upload) returns (s4: State)
    requires Opens(c, u) && Second(c, u, v) && s2.shared == TwoStored(u, v) && PcOf(s2, 2).Idle?
    ensures Run(c, s2, DeletedAndRecreated(u)) == Run(c, s4, Mirrors())
    ensures s4.shared == OneStored(u, v) && PcOf(s4, 2) == Mirror(u, FirstRow(u, 0))
    ensures forall t :: t != 2 ==> PcOf(s4, t) == PcOf(s2, t)
  {
    RecreatePieces(c, u, v);
    StoredThere(u, v);
    hide Alone, Run, Piece, Mirrors, AfterFirst, AfterDelete, AfterAdd, TwoStored, OneStored, FirstRow, Opens, Second;
    var s3 := Goes(c, s2, 2, Delete(u.id), 5, Piece(2, Store(u), 5) + Mirrors(),
                   To(AfterDelete(TwoStored(u, v), u.id), Idle));
    s4 := Goes(c, s3, 2, Store(u), 5, Mirrors(), To(OneStored(u, v), Mirror(u, FirstRow(u, 0))));
  }

  lemma CountsAfterMirrors(u: Upload, v: Upload)
    requires v.id == u.id
    ensures var row, again := FirstRow(u, 0), NextRow(AfterFirst(EmptyStore().shared, u), v);
            var s := Mirrored(Mirrored(Mirrored(OneStored(u, v), v, again), u, row), u, row);
            && u.id in s.metas && s.metas[u.id].receivedChunks == 1
            && u.id in s.cache && s.cache[u.id].receivedChunks == 2
  {
  }

  /** A mirror that a delete has overtaken puts its old chunk count on the transfer created anew. */
  lemma RecreatedCountRunsAhead(c: FileConfig, u: Upload, v: Upload)
    requires Opens(c, u) && Second(c, u, v)
    ensures Opened(c, EmptyStore())
    ensures var s := Run(c, EmptyStore(), Recreated(u, v));
            && Quiet(s) && u.id in s.shared.metas && u.id in s.shared.cache
            && s.shared.metas[u.id].receivedChunks == 1 && s.shared.cache[u.id].receivedChunks == 2
  {
    var s2 := TwoUploads(c, u, v);
    var s4 := ThenRecreated(c, s2, u, v);
    MirrorsInARow(c, s4, u, v, FirstRow(u, 0), NextRow(AfterFirst(EmptyStore().shared, u), v));
    CountsAfterMirrors(u, v);
    hide Run, Quiet, Mirrored, AfterFirst, OneStored, NextRow, FirstRow, Recreated, Mirrors, DeletedAndRecreated;
  }

  // ---------------------------------------------------------------- a chunk beyond its transfer's shape

  /** `u` claims the id, `v` passes the shape check against that claim, `u` fails and gives the claim back,
      `w` creates the transfer in another shape, and `v` is written into it. */
  function Reshaped(u: Upload, v: Upload, w: Upload): seq<Action> {
    Piece(0, Store(u), 1) + (Piece(1, Store(v), 0) + (Piece(0, Move(false), 2) + Landing(w)))
  }

  function Landing(w: Upload): seq<Action> {
    Piece(2, Store(w), 5) + (Piece(1, Move(true), 3) + [])
  }

  function ClaimedBy(u: Upload): Shared {
    EmptyStore().shared.(cache := map[u.id := FileMeta(u.totalChunks, u.totalBytes, 0, 0, 0)], count := 1)
  }

  predicate Beyond(c: FileConfig, u: Upload, v: Upload, w: Upload) {
    && Opens(c, u) && Opens(c, w) && ShapeOk(c, v) && u.id == v.id == w.id
    && v.totalChunks == u.totalChunks && v.totalBytes == u.totalBytes && w.totalChunks <= v.index
    && |w.data| + |v.data| <= Min(w.totalBytes, c.maxTotalFileBytes)
  }

  lemma ClaimGivenBack(c: FileConfig, u: Upload, v: Upload, w: Upload)
    requires Beyond(c, u, v, w)
    ensures Alone(c, EmptyStore().shared, 0, Idle, Store(u), 1) == To(ClaimedBy(u), Waiting(u, true))
    ensures Alone(c, ClaimedBy(u), 1, Idle, Store(v), 0) == To(ClaimedBy(u), Waiting(v, false))
    ensures Alone(c, ClaimedBy(u), 0, Waiting(u, true), Move(false), 2) == To(EmptyStore().shared, Idle)
  {
    var m0 := Act(c, EmptyStore().shared, 0, Idle, Store(u));
    var m1 := Step(c, m0.shared, 0, m0.pc, true);
    assert Solo(c, m0.shared, 0, m0.pc, 1) == m1;
    var n0 := Act(c, ClaimedBy(u), 0, Waiting(u, true), Move(false));
    var n1 := Step(c, n0.shared, 0, n0.pc, true);
    var n2 := Step(c, n1.shared, 0, n1.pc, true);
    assert ClaimedBy(u).cache - {u.id} == map[];
    assert Solo(c, n0.shared, 0, n0.pc, 2) == n2;
  }

  lemma WriteBeyond(c: FileConfig, u: Upload, v: Upload, w: Upload)
    requires Beyond(c, u, v, w)
    ensures var sh := AfterFirst(EmptyStore().shared, w);
            && v.id in sh.metas
            && Alone(c, EmptyStore().shared, 2, Idle, Store(w), 5) == To(sh, Mirror(w, FirstRow(w, 0)))
            && Alone(c, sh, 1, Waiting(v, false), Move(true), 3) == To(AfterAdd(sh, v), Mirror(v, NextRow(sh, v)))
  {
    var sh := AfterFirst(EmptyStore().shared, w);
    FirstChunkAlone(c, EmptyStore().shared, 2, w);
    FurtherChunkAlone(c, sh, 1, v);
    MoveIsStep(c, sh, 1, Waiting(v, false));
    hide Act, Step;
  }

  lemma ReshapedFirst(c: FileConfig, u: Upload, v: Upload, w: Upload) returns (s: State)
    requires Beyond(c, u, v, w)
    ensures Run(c, EmptyStore(), Reshaped(u, v, w)) == Run(c, s, Landing(w))
    ensures s.shared == EmptyStore().shared && PcOf(s, 1) == Waiting(v, false) && PcOf(s, 2).Idle?
  {
    ClaimGivenBack(c, u, v, w);
    hide Alone, Run, Piece, Landing, ClaimedBy, Beyond;
    var s0, rest := EmptyStore(), Piece(0, Move(false), 2) + Landing(w);
    var s1 := Goes(c, s0, 0, Store(u), 1, Piece(1, Store(v), 0) + rest, To(ClaimedBy(u), Waiting(u, true)));
    var s2 := Goes(c, s1, 1, Store(v), 0, rest, To(ClaimedBy(u), Waiting(v, false)));
    s := Goes(c, s2, 0, Move(false), 2, Landing(w), To(s0.shared, Idle));
  }

  /** Nobody deletes anything, and a chunk is committed whose index its transfer does not have. */
  lemma ChunkBeyondShape(c: FileConfig, u: Upload, v: Upload, w: Upload)
    requires Beyond(c, u, v, w)
    ensures Opened(c, EmptyStore())
    ensures var s := Run(c, EmptyStore(), Reshaped(u, v, w)).shared;
            v.id in s.metas && v.index in ChunksOf(s, v.id) && s.metas[v.id].totalChunks <= v.index
  {
    var s := ReshapedFirst(c, u, v, w);
    var sh := AfterFirst(EmptyStore().shared, w);
    WriteBeyond(c, u, v, w);
    assert NextRow(sh, v).totalChunks <= v.index;
    hide Alone, Run, Piece, FirstRow, NextRow, Reshaped;
    var s1 := Goes(c, s, 2, Store(w), 5, Piece(1, Move(true), 3) + [], To(sh, Mirror(w, FirstRow(w, 0))));
    var s2 := Goes(c, s1, 1, Move(true), 3, [], To(AfterAdd(sh, v), Mirror(v, NextRow(sh, v))));
    NothingLeft(c, s2);
  }
}
