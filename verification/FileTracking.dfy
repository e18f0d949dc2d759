/** What the metadata cache says of a transfer on disk, in every interleaving. */
module FileTracking {
  import opened Tables
  import opened FileSpec
  import opened FileStore
  import opened FileProtocol

  // ---------------------------------------------------------------- shape and creation time

  /** Two rows of one transfer, the first no later. */
  predicate SameTransfer(m0: FileMeta, m: FileMeta) {
    m0.totalChunks == m.totalChunks && m0.totalBytes == m.totalBytes && m0.createdAtMs <= m.createdAtMs
  }

  /** The entry a claim put in the cache still has the claim's shape. */
  predicate Provisional(s: Shared, u: Upload) {
    u.id in s.cache && SameTransfer(s.cache[u.id], FileMeta(u.totalChunks, u.totalBytes, 0, 0, s.now))
  }

  /** What an upload of `id` is about to write continues the row or the claim it goes with. */
  predicate Continues(s: Shared, pc: Pc, id: string) {
    match pc
    case Claimed(u) => u.id == id ==> Provisional(s, u)
    case Waiting(u, creating) => u.id == id && creating ==> Provisional(s, u)
    case InTxn(u, creating) => u.id == id && creating ==> Provisional(s, u)
    case Prepared(u, creating, m, _, _) =>
      u.id == id ==>
        && u.id in s.cache && (creating || u.id in s.metas)
        && SameTransfer(if creating then s.cache[u.id] else s.metas[u.id], m)
    case _ => true
  }

  predicate Aligned(s: Shared, id: string) {
    id in s.metas ==> id in s.cache && SameTransfer(s.cache[id], s.metas[id])
  }

  ghost predicate AllAligned(s: State, id: string) {
    Aligned(s.shared, id) && forall t :: t in s.threads ==> Continues(s.shared, s.threads[t], id)
  }

  lemma AlignAct(c: FileConfig, s: Shared, t: nat, pc: Pc, r: Request, id: string)
    requires Aligned(s, id) && Continues(s, pc, id)
    requires Claims(s, pc) && Remembers(c, s, pc) && s.metas.Keys <= s.cache.Keys
    ensures var m := Act(c, s, t, pc, r); Aligned(m.shared, id) && Continues(m.shared, m.pc, id)
  {
    hide RowTrue, ShapeOk;
  }

  /** An entry keeps its shape and creation time in every step of a thread that does not own its id. */
  lemma EntryKept(c: FileConfig, s: Shared, t: nat, pc: Pc, r: Request, id: string)
    requires Owner(pc) != Some(id) && id in s.cache
    ensures var s' := Act(c, s, t, pc, r).shared;
            && s'.now == s.now && id in s'.cache
            && SameTransfer(s.cache[id], s'.cache[id]) && SameTransfer(s'.cache[id], s.cache[id])
  {
  }

  lemma AlignOthers(c: FileConfig, s: Shared, t: nat, pc: Pc, r: Request, other: Pc, id: string)
    requires Continues(s, other, id) && Claims(s, other) && s.metas.Keys <= s.cache.Keys
    requires Claims(s, pc) && Remembers(c, s, other)
    requires HoldsLock(pc) ==> !HoldsLock(other)
    requires Owner(other).Some? ==> Owner(pc) != Owner(other)
    ensures Continues(Act(c, s, t, pc, r).shared, other, id)
  {
    hide Act, RowTrue, ShapeOk;
    if id in s.cache && Owner(pc) != Some(id) { EntryKept(c, s, t, pc, r, id); }
    if other.Prepared? { TablesStep(c, s, t, pc, r); }
  }

  /** What the invariant says of the thread that acts. */
  lemma ActorKnows(c: FileConfig, s: State, t: nat)
    requires Inv(c, s)
    ensures Claims(s.shared, PcOf(s, t)) && Remembers(c, s.shared, PcOf(s, t))
    ensures s.shared.metas.Keys <= s.shared.cache.Keys && Disk(c, s.shared)
  {
  }

  /** And of another thread beside it. */
  lemma OtherKnows(c: FileConfig, s: State, t: nat, o: nat)
    requires Inv(c, s) && o in s.threads && o != t
    ensures Claims(s.shared, s.threads[o]) && Remembers(c, s.shared, s.threads[o])
    ensures HoldsLock(PcOf(s, t)) ==> !HoldsLock(s.threads[o])
    ensures Owner(s.threads[o]).Some? ==> Owner(PcOf(s, t)) != Owner(s.threads[o])
  {
  }

  lemma AlignedKept(c: FileConfig, s: State, a: Action, id: string)
    requires Inv(c, s) && AllAligned(s, id)
    ensures AllAligned(Next(c, s, a), id)
  {
    hide Inv, Remembers, Claims, Disk, Act;
    if a.Do? {
      var pc, s' := PcOf(s, a.t), Next(c, s, a);
      ActorKnows(c, s, a.t);
      AlignAct(c, s.shared, a.t, pc, a.request, id);
      forall o | o in s.threads && o != a.t ensures Continues(s'.shared, s.threads[o], id) {
        OtherKnows(c, s, a.t, o);
        AlignOthers(c, s.shared, a.t, pc, a.request, s.threads[o], id);
      }
      hide Continues, Aligned;
    } else {
      LaterAligned(s, a.ms, id);
    }
  }

  lemma LaterAligned(s: State, ms: nat, id: string)
    requires AllAligned(s, id)
    ensures AllAligned(s.(shared := s.shared.(now := s.shared.now + ms)), id)
  {
    forall o | o in s.threads ensures Continues(s.shared.(now := s.shared.now + ms), s.threads[o], id) {
      assert Continues(s.shared, s.threads[o], id);
    }
  }

  lemma {:induction false} AlignedRun(c: FileConfig, s: State, run: seq<Action>, id: string)
    requires Inv(c, s) && AllAligned(s, id)
    ensures AllAligned(Run(c, s, run), id)
    decreases |run|
  {
    hide Inv, AllAligned, Next;
    if run != [] {
      InvKept(c, s, run[0]);
      AlignedKept(c, s, run[0], id);
      AlignedRun(c, Next(c, s, run[0]), run[1..], id);
    }
  }

  /** In every run the cached shape of a transfer on disk is the durable one, and the cached creation
      time is no later. */
  lemma ShapeReachesCache(c: FileConfig, s0: State, run: seq<Action>, id: string)
    requires Opened(c, s0)
    ensures var s := Run(c, s0, run).shared; id in s.metas ==> id in s.cache && SameTransfer(s.cache[id], s.metas[id])
  {
    OpenedInv(c, s0);
    AlignedRun(c, s0, run, id);
    hide Run;
  }

  // ---------------------------------------------------------------- what has been written into the entry

  /** For every chunk count carried into the entry of `id` since it was last put into the cache, the byte
      count carried last with it.  A claim carries no chunks, the opening scan the row it read. */
  function Rewritten(c: FileConfig, s: Shared, t: nat, pc: Pc, r: Request, id: string, w: map<nat, nat>): map<nat, nat>
  {
    if r.Store? && id !in s.cache && id in Act(c, s, t, pc, r).shared.cache then map[0 := 0]
    else if r.Move? && pc.Mirror? && pc.u.id == id then
      (if id in s.cache then w else map[])[pc.meta.receivedChunks := pc.meta.storedBytes]
    else w
  }

  function WrittenNext(c: FileConfig, s: State, a: Action, id: string, w: map<nat, nat>): map<nat, nat> {
    if a.Do? then Rewritten(c, s.shared, a.t, PcOf(s, a.t), a.request, id, w) else w
  }

  function WrittenRun(c: FileConfig, s: State, run: seq<Action>, id: string, w: map<nat, nat>): map<nat, nat>
    decreases |run|
  {
    if run == [] then w else WrittenRun(c, Next(c, s, run[0]), run[1..], id, WrittenNext(c, s, run[0], id, w))
  }

  function Scanned(s: State, id: string): map<nat, nat> {
    if id in s.shared.cache then map[s.shared.cache[id].receivedChunks := s.shared.cache[id].storedBytes] else map[]
  }

  /** What has been written into the entry of `id` in a run from the open scan. */
  function Written(c: FileConfig, s0: State, run: seq<Action>, id: string): map<nat, nat> {
    WrittenRun(c, s0, run, id, Scanned(s0, id))
  }

  /** The entry holds the greatest chunk count written into it, with the bytes last written with that. */
  predicate HoldsGreatest(s: Shared, id: string, w: map<nat, nat>) {
    id in s.cache ==>
      && s.cache[id].receivedChunks in w && w[s.cache[id].receivedChunks] == s.cache[id].storedBytes
      && forall n :: n in w ==> n <= s.cache[id].receivedChunks
  }

  lemma GreatestAct(c: FileConfig, s: Shared, t: nat, pc: Pc, r: Request, id: string, w: map<nat, nat>)
    requires HoldsGreatest(s, id, w)
    ensures HoldsGreatest(Act(c, s, t, pc, r).shared, id, Rewritten(c, s, t, pc, r, id, w))
  {
  }

  /** A commit on its way into the cache. */
  predicate Pending(pc: Pc, id: string, received: nat) {
    (pc.Committed? || pc.Mirror?) && pc.u.id == id && pc.meta.receivedChunks == received
  }

  /** The durable chunk count has been written into the entry, or a request is about to write it. */
  ghost predicate CarriedOver(s: State, id: string, w: map<nat, nat>) {
    id in s.shared.metas ==>
      || s.shared.metas[id].receivedChunks in w
      || exists t :: t in s.threads && Pending(s.threads[t], id, s.shared.metas[id].receivedChunks)
  }

  /** A row that a step changes or writes anew is in that thread's hands after the step. */
  lemma CarryAct(c: FileConfig, s: Shared, t: nat, pc: Pc, r: Request, id: string, w: map<nat, nat>)
    requires s.metas.Keys <= s.cache.Keys
    ensures var m, w' := Act(c, s, t, pc, r), Rewritten(c, s, t, pc, r, id, w);
            id in m.shared.metas ==>
              && ((id in s.metas && m.shared.metas[id] == s.metas[id] && w.Keys <= w'.Keys)
                  || Pending(m.pc, id, m.shared.metas[id].receivedChunks))
              && (forall n :: Pending(pc, id, n) ==> Pending(m.pc, id, n) || n in w')
  {
  }

  lemma CarriedOverKept(c: FileConfig, s: State, a: Action, id: string, w: map<nat, nat>)
    requires Inv(c, s) && CarriedOver(s, id, w)
    ensures CarriedOver(Next(c, s, a), id, WrittenNext(c, s, a, id, w))
  {
    hide Inv;
    if a.Do? {
      var s', pc := Next(c, s, a), PcOf(s, a.t);
      ActorKnows(c, s, a.t);
      CarryAct(c, s.shared, a.t, pc, a.request, id, w);
      hide Act, Rewritten, Remembers, Claims, Disk;
      assert s'.threads[a.t] == Act(c, s.shared, a.t, pc, a.request).pc;
      if id in s'.shared.metas && !Pending(s'.threads[a.t], id, s'.shared.metas[id].receivedChunks) {
        var n := s.shared.metas[id].receivedChunks;
        if n !in w {
          var o :| o in s.threads && Pending(s.threads[o], id, n);
          if o != a.t { assert s'.threads[o] == s.threads[o]; }
        }
      }
    }
  }

  lemma {:induction false} WrittenHolds(c: FileConfig, s: State, run: seq<Action>, id: string, w: map<nat, nat>)
    requires Inv(c, s) && HoldsGreatest(s.shared, id, w) && CarriedOver(s, id, w)
    ensures var s', w' := Run(c, s, run), WrittenRun(c, s, run, id, w);
            HoldsGreatest(s'.shared, id, w') && CarriedOver(s', id, w')
    decreases |run|
  {
    if run != [] {
      var a := run[0];
      InvKept(c, s, a);
      if a.Do? { GreatestAct(c, s.shared, a.t, PcOf(s, a.t), a.request, id, w); }
      CarriedOverKept(c, s, a, id, w);
      hide Inv, Act, Rewritten, HoldsGreatest, CarriedOver;
      WrittenHolds(c, Next(c, s, a), run[1..], id, WrittenNext(c, s, a, id, w));
    }
  }

  /** In every run the cached counts are the greatest chunk count written into the entry and the bytes
      last written with it. */
  lemma CacheIsGreatestWritten(c: FileConfig, s0: State, run: seq<Action>, id: string)
    requires Opened(c, s0)
    ensures HoldsGreatest(Run(c, s0, run).shared, id, Written(c, s0, run, id))
    ensures CarriedOver(Run(c, s0, run), id, Written(c, s0, run, id))
  {
    OpenedInv(c, s0);
    WrittenHolds(c, s0, run, id, Scanned(s0, id));
  }

  /** When every request is answered: the cached chunk count of a transfer on disk is never short of the
      durable one, and it is the durable one exactly when no greater count was written into the entry.
      Then the cached byte count is the durable one exactly when the last mirror that carried the durable
      chunk count carried the durable byte count. */
  lemma CountsReachCache(c: FileConfig, s0: State, run: seq<Action>, id: string)
    requires Opened(c, s0) && Quiet(Run(c, s0, run)) && id in Run(c, s0, run).shared.metas
    ensures var s, w := Run(c, s0, run).shared, Written(c, s0, run, id);
            && id in s.cache
            && var cached, durable := s.cache[id], s.metas[id];
            && durable.receivedChunks in w && durable.receivedChunks <= cached.receivedChunks
            && (cached.receivedChunks == durable.receivedChunks <==> forall n :: n in w ==> n <= durable.receivedChunks)
            && (cached.receivedChunks == durable.receivedChunks ==>
                  (cached.storedBytes == durable.storedBytes <==> w[durable.receivedChunks] == durable.storedBytes))
  {
    OpenedInv(c, s0);
    RunInv(c, s0, run);
    CacheIsGreatestWritten(c, s0, run, id);
    ActorKnows(c, Run(c, s0, run), 0);
    hide Run, Written, Inv;
  }

  // ---------------------------------------------------------------- mirrors that outlive a delete

  /** A committed upload of `id` whose cache entry is still to be brought up to date. */
  predicate Carries(pc: Pc, id: string) {
    (pc.Committed? || pc.Mirror?) && pc.u.id == id
  }

  predicate CommitsDelete(pc: Pc, r: Request, id: string) {
    pc == DelTxn(id) && r == Move(true)
  }

  /** The threads that committed an upload of `id` before a later committed delete of it. */
  function OutdatedNext(s: State, a: Action, id: string, out: set<nat>): set<nat> {
    if a.Tick? then out
    else if CommitsDelete(PcOf(s, a.t), a.request, id) then set t | t in s.threads && Carries(s.threads[t], id)
    else if a.request.Move? && PcOf(s, a.t).Mirror? then out - {a.t}
    else out
  }

  /** The mirror of a commit that a delete has overtaken. */
  predicate OutdatedMirror(pc: Pc, r: Request, id: string, outdated: bool) {
    outdated && r.Move? && pc.Mirror? && pc.u.id == id
  }

  /** The run has no such mirror. */
  predicate NoOutdatedMirror(c: FileConfig, s: State, run: seq<Action>, id: string, out: set<nat>)
    decreases |run|
  {
    run != [] ==>
      && !(run[0].Do? && OutdatedMirror(PcOf(s, run[0].t), run[0].request, id, run[0].t in out))
      && NoOutdatedMirror(c, Next(c, s, run[0]), run[1..], id, OutdatedNext(s, run[0], id, out))
  }

  /** What a thread may carry into the entry is no more than the disk has. */
  predicate Bounded(s: Shared, pc: Pc, id: string, outdated: bool, w: map<nat, nat>) {
    && (Owner(pc) == Some(id) && !pc.DelDrop? ==> forall n :: n in w ==> n == 0)
    && (pc.Prepared? && pc.u.id == id && !pc.creating ==>
          id in s.metas && s.metas[id].receivedChunks <= pc.meta.receivedChunks)
    && (Carries(pc, id) && !outdated ==> id in s.metas && pc.meta.receivedChunks <= s.metas[id].receivedChunks)
  }

  predicate WrittenBounded(s: Shared, id: string, w: map<nat, nat>) {
    id in s.metas ==> forall n :: n in w ==> n <= s.metas[id].receivedChunks
  }

  predicate OutdatedAfter(pc: Pc, r: Request, acting: bool, other: Pc, id: string, outdated: bool): (b: bool) {
    if CommitsDelete(pc, r, id) then Carries(other, id)
    else if acting && r.Move? && pc.Mirror? then false
    else outdated
  }

  lemma BoundAct(c: FileConfig, s: Shared, t: nat, pc: Pc, r: Request, id: string, outdated: bool, w: map<nat, nat>)
    requires Bounded(s, pc, id, outdated, w) && !OutdatedMirror(pc, r, id, outdated)
    requires Claims(s, pc) && Remembers(c, s, pc) && s.metas.Keys <= s.cache.Keys
    ensures var m := Act(c, s, t, pc, r);
            Bounded(m.shared, m.pc, id, OutdatedAfter(pc, r, true, pc, id, outdated), Rewritten(c, s, t, pc, r, id, w))
  {
    hide RowTrue, ShapeOk;
  }

  lemma WrittenBoundAct(c: FileConfig, s: Shared, t: nat, pc: Pc, r: Request, id: string, outdated: bool,
                        w: map<nat, nat>)
    requires Bounded(s, pc, id, outdated, w) && WrittenBounded(s, id, w) && !OutdatedMirror(pc, r, id, outdated)
    requires Remembers(c, s, pc) && s.metas.Keys <= s.cache.Keys
    ensures WrittenBounded(Act(c, s, t, pc, r).shared, id, Rewritten(c, s, t, pc, r, id, w))
  {
    hide RowTrue, ShapeOk;
  }

  /** A delete apart, a row only moves on. */
  lemma RowMovesOn(c: FileConfig, s: Shared, t: nat, pc: Pc, r: Request, id: string, outdated: bool, w: map<nat, nat>)
    requires Bounded(s, pc, id, outdated, w) && Remembers(c, s, pc) && !CommitsDelete(pc, r, id)
    ensures var s' := Act(c, s, t, pc, r).shared;
            id in s.metas ==> id in s'.metas && s.metas[id].receivedChunks <= s'.metas[id].receivedChunks
  {
    hide RowTrue, ShapeOk;
  }

  lemma BoundOthers(c: FileConfig, s: Shared, t: nat, pc: Pc, r: Request, other: Pc, id: string,
                    acting: bool, outdated: bool, w: map<nat, nat>)
    requires Bounded(s, pc, id, acting, w) && Bounded(s, other, id, outdated, w) && !OutdatedMirror(pc, r, id, acting)
    requires Claims(s, pc) && Claims(s, other) && Remembers(c, s, pc)
    requires HoldsLock(pc) ==> !HoldsLock(other)
    requires Owner(other).Some? ==> Owner(pc) != Owner(other)
    ensures Bounded(Act(c, s, t, pc, r).shared, other, id, OutdatedAfter(pc, r, false, other, id, outdated),
                    Rewritten(c, s, t, pc, r, id, w))
  {
    hide RowTrue, ShapeOk;
    if CommitsDelete(pc, r, id) {
    } else {
      RowMovesOn(c, s, t, pc, r, id, acting, w);
      if !HoldsLock(pc) { TablesStep(c, s, t, pc, r); }
      hide Act;
    }
  }

  ghost predicate AllBounded(s: State, id: string, out: set<nat>, w: map<nat, nat>) {
    && WrittenBounded(s.shared, id, w)
    && forall t :: t in s.threads ==> Bounded(s.shared, s.threads[t], id, t in out, w)
  }

  lemma AllBoundedKept(c: FileConfig, s: State, a: Action, id: string, out: set<nat>, w: map<nat, nat>)
    requires Inv(c, s) && AllBounded(s, id, out, w) && (out <= s.threads.Keys)
    requires a.Do? ==> !OutdatedMirror(PcOf(s, a.t), a.request, id, a.t in out)
    ensures AllBounded(Next(c, s, a), id, OutdatedNext(s, a, id, out), WrittenNext(c, s, a, id, w))
    ensures OutdatedNext(s, a, id, out) <= Next(c, s, a).threads.Keys
  {
    hide Inv, Remembers, Claims, Disk, Act, Rewritten, WrittenBounded;
    if a.Do? {
      var s', out', w' := Next(c, s, a), OutdatedNext(s, a, id, out), WrittenNext(c, s, a, id, w);
      var pc := PcOf(s, a.t);
      ActorKnows(c, s, a.t);
      assert Bounded(s.shared, pc, id, a.t in out, w);
      BoundAct(c, s.shared, a.t, pc, a.request, id, a.t in out, w);
      WrittenBoundAct(c, s.shared, a.t, pc, a.request, id, a.t in out, w);
      assert Bounded(s'.shared, s'.threads[a.t], id, a.t in out', w') by {
        StaleUnlessCarrying(s'.shared, s'.threads[a.t], id, OutdatedAfter(pc, a.request, true, pc, id, a.t in out),
                            a.t in out', w');
      }
      forall o | o in s.threads && o != a.t ensures Bounded(s'.shared, s.threads[o], id, o in out', w') {
        OtherKnows(c, s, a.t, o);
        BoundOthers(c, s.shared, a.t, pc, a.request, s.threads[o], id, a.t in out, o in out, w);
      }
      hide Bounded;
    } else {
      LaterBounded(s, a.ms, id, out, w);
    }
  }

  lemma StaleUnlessCarrying(s: Shared, pc: Pc, id: string, b: bool, b': bool, w: map<nat, nat>)
    requires Bounded(s, pc, id, b, w) && (b' || !b || !Carries(pc, id))
    ensures Bounded(s, pc, id, b', w)
  {
  }

  lemma LaterBounded(s: State, ms: nat, id: string, out: set<nat>, w: map<nat, nat>)
    requires AllBounded(s, id, out, w)
    ensures AllBounded(s.(shared := s.shared.(now := s.shared.now + ms)), id, out, w)
  {
    forall o | o in s.threads ensures Bounded(s.shared.(now := s.shared.now + ms), s.threads[o], id, o in out, w) {
      assert Bounded(s.shared, s.threads[o], id, o in out, w);
    }
  }

  lemma {:induction false} BoundedRun(c: FileConfig, s: State, run: seq<Action>, id: string, out: set<nat>,
                                      w: map<nat, nat>)
    requires Inv(c, s) && AllBounded(s, id, out, w) && out <= s.threads.Keys && NoOutdatedMirror(c, s, run, id, out)
    ensures WrittenBounded(Run(c, s, run).shared, id, WrittenRun(c, s, run, id, w))
    decreases |run|
  {
    if run != [] {
      var a := run[0];
      InvKept(c, s, a);
      AllBoundedKept(c, s, a, id, out, w);
      hide Inv, Act, AllBounded, Next;
      BoundedRun(c, Next(c, s, a), run[1..], id, OutdatedNext(s, a, id, out), WrittenNext(c, s, a, id, w));
    }
  }

  /** As long as no mirror outlives a delete of its transfer, the cached chunk count is never ahead of the
      disk, and once every request is answered it is the number of chunks on disk. */
  lemma ReceivedReachesCache(c: FileConfig, s0: State, run: seq<Action>, id: string)
    requires Opened(c, s0) && NoOutdatedMirror(c, s0, run, id, {})
    ensures var s := Run(c, s0, run);
            id in s.shared.metas ==>
              && id in s.shared.cache
              && s.shared.cache[id].receivedChunks <= s.shared.metas[id].receivedChunks == |ChunksOf(s.shared, id)|
              && (Quiet(s) ==> s.shared.cache[id].receivedChunks == s.shared.metas[id].receivedChunks)
  {
    OpenedInv(c, s0);
    RunInv(c, s0, run);
    BoundedRun(c, s0, run, id, {}, Scanned(s0, id));
    CacheIsGreatestWritten(c, s0, run, id);
    var s := Run(c, s0, run);
    if id in s.shared.metas {
      ActorKnows(c, s, 0);
      if Quiet(s) { CountsReachCache(c, s0, run, id); }
    }
    hide Run, Inv;
  }

  /** And then the cached byte count is the durable one exactly when the last mirror that carried the
      durable chunk count carried the durable byte count. */
  lemma BytesExactlyWhenMirrored(c: FileConfig, s0: State, run: seq<Action>, id: string)
    requires Opened(c, s0) && NoOutdatedMirror(c, s0, run, id, {})
    requires Quiet(Run(c, s0, run)) && id in Run(c, s0, run).shared.metas
    ensures var s, w := Run(c, s0, run).shared, Written(c, s0, run, id);
            && id in s.cache && s.metas[id].receivedChunks in w
            && (s.cache[id].storedBytes == s.metas[id].storedBytes <==>
                w[s.metas[id].receivedChunks] == s.metas[id].storedBytes)
  {
    ReceivedReachesCache(c, s0, run, id);
    CountsReachCache(c, s0, run, id);
    hide Run, Written;
  }

  /** A transfer nobody asks to delete is a special case. */
  lemma {:induction false} UndeletedHasNone(c: FileConfig, s: State, run: seq<Action>, id: string)
    requires forall t :: t in s.threads ==> s.threads[t] != DelWaiting(id) && s.threads[t] != DelTxn(id)
    requires forall a :: a in run ==> !(a.Do? && a.request == Delete(id))
    ensures NoOutdatedMirror(c, s, run, id, {})
    decreases |run|
  {
    if run != [] {
      var a := run[0];
      if a.Do? {
        NoDeleteBegins(c, s.shared, a.t, PcOf(s, a.t), a.request, id);
        hide Act;
      }
      assert OutdatedNext(s, a, id, {}) == {};
      UndeletedHasNone(c, Next(c, s, a), run[1..], id);
    }
  }

  lemma NoDeleteBegins(c: FileConfig, s: Shared, t: nat, pc: Pc, r: Request, id: string)
    requires pc != DelWaiting(id) && pc != DelTxn(id) && r != Delete(id)
    ensures var m := Act(c, s, t, pc, r); m.pc != DelWaiting(id) && m.pc != DelTxn(id)
  {
  }

  // ---------------------------------------------------------------- byte counts

  /** An upload of `id` that has not committed. */
  predicate Uploads(pc: Pc, id: string) {
    (pc.Claimed? || pc.Waiting? || pc.InTxn? || pc.Prepared?) && pc.u.id == id
  }

  /** Every upload of a chunk has the same length, and equal chunk counts mean equal byte counts. */
  predicate Steady(s: Shared, pc: Pc, id: string, outdated: bool, len: nat -> nat) {
    && (Uploads(pc, id) ==> |pc.u.data| == len(pc.u.index))
    && (Carries(pc, id) && !outdated && id in s.metas && pc.meta.receivedChunks == s.metas[id].receivedChunks ==>
          pc.meta.storedBytes == s.metas[id].storedBytes)
  }

  predicate LengthsKept(s: Shared, id: string, len: nat -> nat) {
    id in s.chunks ==> forall i :: i in s.chunks[id] ==> |s.chunks[id][i]| == len(i)
  }

  predicate WrittenSteady(s: Shared, id: string, w: map<nat, nat>) {
    id in s.metas && s.metas[id].receivedChunks in w ==> w[s.metas[id].receivedChunks] == s.metas[id].storedBytes
  }

  /** A commit either counts one more chunk or leaves both counts as they are. */
  lemma CommitCounts(c: FileConfig, s: Shared, pc: Pc, id: string, len: nat -> nat)
    requires pc.Prepared? && pc.u.id == id && Remembers(c, s, pc) && Disk(c, s)
    requires LengthsKept(s, id, len) && |pc.u.data| == len(pc.u.index)
    ensures pc.meta.receivedChunks >= 1
    ensures id in s.metas ==>
              pc.meta.receivedChunks > s.metas[id].receivedChunks ||
              (pc.meta.receivedChunks == s.metas[id].receivedChunks && pc.meta.storedBytes == s.metas[id].storedBytes)
  {
    var chunks := ChunksOf(s, id);
    assert chunks[pc.u.index := pc.u.data][pc.u.index] == pc.u.data;
    if id in s.metas {
      ChunkTraded(c, s.metas[id], chunks, pc.u.index, pc.u.data);
    }
    hide Sum;
  }

  lemma SteadyAct(c: FileConfig, s: Shared, t: nat, pc: Pc, r: Request, id: string, outdated: bool, len: nat -> nat)
    requires Steady(s, pc, id, outdated, len)
    requires r.Store? && r.u.id == id ==> |r.u.data| == len(r.u.index)
    ensures var m := Act(c, s, t, pc, r); Steady(m.shared, m.pc, id, OutdatedAfter(pc, r, true, pc, id, outdated), len)
  {
  }

  lemma LengthsAct(c: FileConfig, s: Shared, t: nat, pc: Pc, r: Request, id: string, outdated: bool, len: nat -> nat)
    requires Steady(s, pc, id, outdated, len) && LengthsKept(s, id, len)
    ensures LengthsKept(Act(c, s, t, pc, r).shared, id, len)
  {
    if !HoldsLock(pc) {
      TablesStep(c, s, t, pc, r);
      hide Act;
    }
  }

  lemma SteadyOthers(c: FileConfig, s: Shared, t: nat, pc: Pc, r: Request, other: Pc, id: string,
                     acting: bool, outdated: bool, w: map<nat, nat>, len: nat -> nat)
    requires Steady(s, pc, id, acting, len) && Steady(s, other, id, outdated, len) && LengthsKept(s, id, len)
    requires Bounded(s, pc, id, acting, w) && Bounded(s, other, id, outdated, w)
    requires Remembers(c, s, pc) && Disk(c, s)
    ensures Steady(Act(c, s, t, pc, r).shared, other, id, OutdatedAfter(pc, r, false, other, id, outdated), len)
  {
    hide RowTrue, ShapeOk, Disk;
    if pc.Prepared? && pc.u.id == id { CommitCounts(c, s, pc, id, len); }
  }

  lemma WrittenSteadyAct(c: FileConfig, s: Shared, t: nat, pc: Pc, r: Request, id: string, outdated: bool,
                         w: map<nat, nat>, len: nat -> nat)
    requires Steady(s, pc, id, outdated, len) && LengthsKept(s, id, len) && WrittenSteady(s, id, w)
    requires Bounded(s, pc, id, outdated, w) && WrittenBounded(s, id, w) && !OutdatedMirror(pc, r, id, outdated)
    requires Remembers(c, s, pc) && Disk(c, s) && s.metas.Keys <= s.cache.Keys
    ensures WrittenSteady(Act(c, s, t, pc, r).shared, id, Rewritten(c, s, t, pc, r, id, w))
  {
    hide RowTrue, ShapeOk, Disk;
    if pc.Prepared? && pc.u.id == id { CommitCounts(c, s, pc, id, len); }
  }

  ghost predicate AllSteady(s: State, id: string, out: set<nat>, w: map<nat, nat>, len: nat -> nat) {
    && LengthsKept(s.shared, id, len) && WrittenSteady(s.shared, id, w)
    && forall t :: t in s.threads ==> Steady(s.shared, s.threads[t], id, t in out, len)
  }

  /** No upload of `id` gives a chunk another length. */
  predicate NoResize(run: seq<Action>, id: string, len: nat -> nat) {
    forall a :: a in run && a.Do? && a.request.Store? && a.request.u.id == id ==>
      |a.request.u.data| == len(a.request.u.index)
  }

  lemma AllSteadyKept(c: FileConfig, s: State, a: Action, id: string, out: set<nat>, w: map<nat, nat>, len: nat -> nat)
    requires Inv(c, s) && AllBounded(s, id, out, w) && AllSteady(s, id, out, w, len) && out <= s.threads.Keys
    requires a.Do? ==> !OutdatedMirror(PcOf(s, a.t), a.request, id, a.t in out)
    requires NoResize([a], id, len)
    ensures AllSteady(Next(c, s, a), id, OutdatedNext(s, a, id, out), WrittenNext(c, s, a, id, w), len)
  {
    hide Inv, Remembers, Claims, Disk, Act, Rewritten, WrittenBounded, WrittenSteady, LengthsKept;
    if a.Do? {
      assert a in [a];
      var s', out', w' := Next(c, s, a), OutdatedNext(s, a, id, out), WrittenNext(c, s, a, id, w);
      var pc := PcOf(s, a.t);
      ActorKnows(c, s, a.t);
      assert Bounded(s.shared, pc, id, a.t in out, w) && Steady(s.shared, pc, id, a.t in out, len);
      SteadyAct(c, s.shared, a.t, pc, a.request, id, a.t in out, len);
      LengthsAct(c, s.shared, a.t, pc, a.request, id, a.t in out, len);
      WrittenSteadyAct(c, s.shared, a.t, pc, a.request, id, a.t in out, w, len);
      SteadyUnlessCarrying(s'.shared, s'.threads[a.t], id, OutdatedAfter(pc, a.request, true, pc, id, a.t in out),
                           a.t in out', len);
      forall o | o in s.threads && o != a.t ensures Steady(s'.shared, s.threads[o], id, o in out', len) {
        OtherKnows(c, s, a.t, o);
        SteadyOthers(c, s.shared, a.t, pc, a.request, s.threads[o], id, a.t in out, o in out, w, len);
      }
      hide Bounded, Steady;
    } else {
      LaterSteady(s, a.ms, id, out, w, len);
    }
  }

  lemma SteadyUnlessCarrying(s: Shared, pc: Pc, id: string, b: bool, b': bool, len: nat -> nat)
    requires Steady(s, pc, id, b, len) && (b' || !b || !Carries(pc, id))
    ensures Steady(s, pc, id, b', len)
  {
  }

  lemma LaterSteady(s: State, ms: nat, id: string, out: set<nat>, w: map<nat, nat>, len: nat -> nat)
    requires AllSteady(s, id, out, w, len)
    ensures AllSteady(s.(shared := s.shared.(now := s.shared.now + ms)), id, out, w, len)
  {
    forall o | o in s.threads ensures Steady(s.shared.(now := s.shared.now + ms), s.threads[o], id, o in out, len) {
      assert Steady(s.shared, s.threads[o], id, o in out, len);
    }
  }

  lemma {:induction false} SteadyRun(c: FileConfig, s: State, run: seq<Action>, id: string, out: set<nat>,
                                     w: map<nat, nat>,
                                     len: nat -> nat)
    requires Inv(c, s) && AllBounded(s, id, out, w) && AllSteady(s, id, out, w, len) && out <= s.threads.Keys
    requires NoOutdatedMirror(c, s, run, id, out) && NoResize(run, id, len)
    ensures WrittenSteady(Run(c, s, run).shared, id, WrittenRun(c, s, run, id, w))
    decreases |run|
  {
    if run != [] {
      var a := run[0];
      InvKept(c, s, a);
      AllBoundedKept(c, s, a, id, out, w);
      assert NoResize([a], id, len) && NoResize(run[1..], id, len);
      AllSteadyKept(c, s, a, id, out, w, len);
      hide Inv, Act, AllBounded, AllSteady, Next, NoResize;
      SteadyRun(c, Next(c, s, a), run[1..], id, OutdatedNext(s, a, id, out), WrittenNext(c, s, a, id, w), len);
    }
  }

  /** If besides no upload of the transfer gives a chunk another length, the cached byte count is the
      durable one too once every request is answered. */
  lemma BytesReachCache(c: FileConfig, s0: State, run: seq<Action>, id: string, len: nat -> nat)
    requires Opened(c, s0) && LengthsKept(s0.shared, id, len)
    requires NoOutdatedMirror(c, s0, run, id, {}) && NoResize(run, id, len)
    requires Quiet(Run(c, s0, run)) && id in Run(c, s0, run).shared.metas
    ensures var s := Run(c, s0, run).shared;
            && id in s.cache && s.cache[id].receivedChunks == s.metas[id].receivedChunks
            && s.cache[id].storedBytes == s.metas[id].storedBytes
  {
    OpenedInv(c, s0);
    SteadyRun(c, s0, run, id, {}, Scanned(s0, id), len);
    ReceivedReachesCache(c, s0, run, id);
    CountsReachCache(c, s0, run, id);
    hide Run, Inv;
  }

  // ---------------------------------------------------------------- chunk indices

  predicate AllBelow(chunks: map<nat, Bytes>, n: nat) {
    forall i :: i in chunks ==> i < n
  }

  /** The step commits a chunk of `id`. */
  predicate CommitsChunk(pc: Pc, r: Request, id: string) {
    pc.Prepared? && r == Move(true) && pc.u.id == id
  }

  /** Whether, since the last committed delete of `id`, a chunk was committed whose index its row does not
      allow. */
  predicate BeyondNext(pc: Pc, r: Request, id: string, beyond: bool) {
    if CommitsDelete(pc, r, id) then false
    else beyond || (CommitsChunk(pc, r, id) && pc.meta.totalChunks <= pc.u.index)
  }

  predicate BeyondRun(c: FileConfig, s: State, run: seq<Action>, id: string, beyond: bool)
    decreases |run|
  {
    if run == [] then beyond
    else
      var a := run[0];
      BeyondRun(c, Next(c, s, a), run[1..], id, if a.Do? then BeyondNext(PcOf(s, a.t), a.request, id, beyond)
          else beyond)
  }

  predicate AnyBeyond(s: Shared, id: string) {
    id in s.metas && !AllBelow(ChunksOf(s, id), s.metas[id].totalChunks)
  }

  /** An upload under way has an index its own shape allows, and will write the row's chunk count. */
  predicate Formed(s: Shared, pc: Pc, id: string) {
    Uploads(pc, id) ==>
      && pc.u.index < pc.u.totalChunks
      && (pc.Prepared? && pc.creating ==> pc.meta.totalChunks == pc.u.totalChunks)
      && (pc.Prepared? && !pc.creating ==> id in s.metas && pc.meta.totalChunks == s.metas[id].totalChunks)
  }

  lemma FormedAct(c: FileConfig, s: Shared, t: nat, pc: Pc, r: Request, id: string)
    requires Formed(s, pc, id) && Remembers(c, s, pc)
    ensures var m := Act(c, s, t, pc, r); Formed(m.shared, m.pc, id)
  {
    hide RowTrue;
  }

  lemma FormedOthers(c: FileConfig, s: Shared, t: nat, pc: Pc, r: Request, other: Pc, id: string)
    requires Formed(s, other, id) && (HoldsLock(pc) ==> !HoldsLock(other))
    ensures Formed(Act(c, s, t, pc, r).shared, other, id)
  {
    hide Act;
    if other.Prepared? { TablesStep(c, s, t, pc, r); }
  }

  lemma OneMoreIndex(chunks: map<nat, Bytes>, index: nat, data: Bytes, n: nat)
    ensures AllBelow(chunks[index := data], n) <==> AllBelow(chunks, n) && index < n
    ensures chunks == map[] ==> AllBelow(chunks, n)
  {
    if AllBelow(chunks[index := data], n) {
      forall i | i in chunks ensures i < n { assert i in chunks[index := data]; }
      assert index in chunks[index := data];
    }
  }

  lemma BeyondAct(c: FileConfig, s: Shared, t: nat, pc: Pc, r: Request, id: string)
    requires Formed(s, pc, id) && Remembers(c, s, pc) && s.metas.Keys == s.chunks.Keys
    ensures AnyBeyond(Act(c, s, t, pc, r).shared, id) == BeyondNext(pc, r, id, AnyBeyond(s, id))
  {
    hide RowTrue, ShapeOk, AllBelow;
    if CommitsChunk(pc, r, id) {
      OneMoreIndex(ChunksOf(s, id), pc.u.index, pc.u.data, pc.meta.totalChunks);
    } else if !HoldsLock(pc) {
      TablesStep(c, s, t, pc, r);
      hide Act;
    }
  }

  ghost predicate AllFormed(s: State, id: string) {
    forall t :: t in s.threads ==> Formed(s.shared, s.threads[t], id)
  }

  lemma AllFormedKept(c: FileConfig, s: State, a: Action, id: string)
    requires Inv(c, s) && AllFormed(s, id)
    ensures AllFormed(Next(c, s, a), id)
    ensures AnyBeyond(Next(c, s, a).shared, id)
            == if a.Do? then BeyondNext(PcOf(s, a.t), a.request, id, AnyBeyond(s.shared, id))
                else AnyBeyond(s.shared, id)
  {
    hide Inv, Remembers, Claims, Act;
    if a.Do? {
      var s', pc := Next(c, s, a), PcOf(s, a.t);
      ActorKnows(c, s, a.t);
      FormedAct(c, s.shared, a.t, pc, a.request, id);
      BeyondAct(c, s.shared, a.t, pc, a.request, id);
      forall o | o in s.threads && o != a.t ensures Formed(s'.shared, s.threads[o], id) {
        OtherKnows(c, s, a.t, o);
        FormedOthers(c, s.shared, a.t, pc, a.request, s.threads[o], id);
      }
      hide Formed, AnyBeyond, BeyondNext;
    } else {
      LaterFormed(s, a.ms, id);
    }
  }

  lemma LaterFormed(s: State, ms: nat, id: string)
    requires AllFormed(s, id)
    ensures var s' := s.(shared := s.shared.(now := s.shared.now + ms));
            AllFormed(s', id) && AnyBeyond(s'.shared, id) == AnyBeyond(s.shared, id)
  {
    assert ChunksOf(s.shared.(now := s.shared.now + ms), id) == ChunksOf(s.shared, id);
  }

  lemma {:induction false} RunBeyond(c: FileConfig, s: State, run: seq<Action>, id: string)
    requires Inv(c, s) && AllFormed(s, id)
    ensures AnyBeyond(Run(c, s, run).shared, id) == BeyondRun(c, s, run, id, AnyBeyond(s.shared, id))
    decreases |run|
  {
    if run != [] {
      InvKept(c, s, run[0]);
      AllFormedKept(c, s, run[0], id);
      hide Inv, AllFormed, Next, AnyBeyond, BeyondNext;
      RunBeyond(c, Next(c, s, run[0]), run[1..], id);
    }
  }

  /** In every run all stored indices of a transfer are below its chunk count exactly when, since the last
      committed delete of it, no chunk beyond its row was committed. */
  lemma IndicesBelowUnlessBeyond(c: FileConfig, s0: State, run: seq<Action>, id: string)
    requires Opened(c, s0)
    ensures var s := Run(c, s0, run).shared;
            id in s.metas ==>
              (AllBelow(ChunksOf(s, id), s.metas[id].totalChunks) <==>
               !BeyondRun(c, s0, run, id, AnyBeyond(s0.shared, id)))
  {
    OpenedInv(c, s0);
    RunBeyond(c, s0, run, id);
    hide Run, BeyondRun, Inv;
  }

  /** A chunk is committed into a row of another shape than its upload was checked against: the shape check
      reads the cache, and the write does not repeat it on the row it finds. */
  predicate ReshapedCommit(pc: Pc, r: Request, id: string) {
    CommitsChunk(pc, r, id) && !pc.creating && pc.u.totalChunks != pc.meta.totalChunks
  }

  predicate NoReshapedCommit(c: FileConfig, s: State, run: seq<Action>, id: string)
    decreases |run|
  {
    run != [] ==>
      && !(run[0].Do? && ReshapedCommit(PcOf(s, run[0].t), run[0].request, id))
      && NoReshapedCommit(c, Next(c, s, run[0]), run[1..], id)
  }

  lemma {:induction false} UnreshapedRun(c: FileConfig, s: State, run: seq<Action>, id: string)
    requires Inv(c, s) && AllFormed(s, id) && !AnyBeyond(s.shared, id) && NoReshapedCommit(c, s, run, id)
    ensures !AnyBeyond(Run(c, s, run).shared, id)
    decreases |run|
  {
    if run != [] {
      var a := run[0];
      InvKept(c, s, a);
      AllFormedKept(c, s, a, id);
      if a.Do? { assert Formed(s.shared, PcOf(s, a.t), id); }
      hide Inv, AllFormed, Next, AnyBeyond;
      UnreshapedRun(c, Next(c, s, a), run[1..], id);
    }
  }

  /** So they are as long as no chunk is committed into a row of another shape, whatever is deleted and
      whichever claims are given back. */
  lemma ChunkIndicesBelow(c: FileConfig, s0: State, run: seq<Action>, id: string)
    requires Opened(c, s0) && !AnyBeyond(s0.shared, id) && NoReshapedCommit(c, s0, run, id)
    ensures !AnyBeyond(Run(c, s0, run).shared, id)
  {
    OpenedInv(c, s0);
    UnreshapedRun(c, s0, run, id);
    hide Run, Inv;
  }

  // ---------------------------------------------------------------- one declared shape

  /** Every upload of `id` declares `n` chunks. */
  predicate Declares(run: seq<Action>, id: string, n: nat) {
    forall a :: a in run && a.Do? && a.request.Store? && a.request.u.id == id ==> a.request.u.totalChunks == n
  }

  /** An upload under way declares `n` chunks and so does the row it finds. */
  predicate Agrees(s: Shared, pc: Pc, id: string, n: nat) {
    Uploads(pc, id) ==>
      && pc.u.totalChunks == n && (id in s.metas ==> s.metas[id].totalChunks == n)
      && (pc.Prepared? ==> pc.meta.totalChunks == n)
  }

  lemma AgreeAct(c: FileConfig, s: Shared, t: nat, pc: Pc, r: Request, id: string, n: nat)
    requires Agrees(s, pc, id, n) && Aligned(s, id) && Remembers(c, s, pc)
    requires r.Store? && r.u.id == id ==> r.u.totalChunks == n
    ensures var m := Act(c, s, t, pc, r); Agrees(m.shared, m.pc, id, n)
  {
    hide RowTrue, ShapeOk;
  }

  lemma AgreeOthers(c: FileConfig, s: Shared, t: nat, pc: Pc, r: Request, other: Pc, id: string, n: nat)
    requires Agrees(s, pc, id, n) && Agrees(s, other, id, n)
    ensures Agrees(Act(c, s, t, pc, r).shared, other, id, n)
  {
    if !HoldsLock(pc) {
      TablesStep(c, s, t, pc, r);
      hide Act;
    }
  }

  ghost predicate AllAgree(s: State, id: string, n: nat) {
    forall t :: t in s.threads ==> Agrees(s.shared, s.threads[t], id, n)
  }

  lemma AllAgreeKept(c: FileConfig, s: State, a: Action, id: string, n: nat)
    requires Inv(c, s) && AllAligned(s, id) && AllAgree(s, id, n) && Declares([a], id, n)
    ensures AllAgree(Next(c, s, a), id, n)
  {
    hide Inv, Remembers, Claims, Disk, Act, Aligned, Continues;
    if a.Do? {
      assert a in [a];
      var s', pc := Next(c, s, a), PcOf(s, a.t);
      ActorKnows(c, s, a.t);
      AgreeAct(c, s.shared, a.t, pc, a.request, id, n);
      forall o | o in s.threads && o != a.t ensures Agrees(s'.shared, s.threads[o], id, n) {
        AgreeOthers(c, s.shared, a.t, pc, a.request, s.threads[o], id, n);
      }
      hide Agrees;
    }
  }

  lemma {:induction false} DeclaredRun(c: FileConfig, s: State, run: seq<Action>, id: string, n: nat)
    requires Inv(c, s) && AllAligned(s, id) && AllAgree(s, id, n) && Declares(run, id, n)
    ensures NoReshapedCommit(c, s, run, id)
    decreases |run|
  {
    if run != [] {
      var a := run[0];
      InvKept(c, s, a);
      AlignedKept(c, s, a, id);
      assert Declares([a], id, n) && Declares(run[1..], id, n);
      AllAgreeKept(c, s, a, id, n);
      if a.Do? { assert Agrees(s.shared, PcOf(s, a.t), id, n); }
      hide Inv, AllAligned, AllAgree, Next, Declares;
      DeclaredRun(c, Next(c, s, a), run[1..], id, n);
    }
  }

  /** In particular when every upload of the transfer declares the same chunk count. */
  lemma SameShapeIndicesBelow(c: FileConfig, s0: State, run: seq<Action>, id: string, n: nat)
    requires Opened(c, s0) && !AnyBeyond(s0.shared, id) && Declares(run, id, n)
    ensures !AnyBeyond(Run(c, s0, run).shared, id)
  {
    OpenedInv(c, s0);
    DeclaredRun(c, s0, run, id, n);
    hide Run, Inv;
    ChunkIndicesBelow(c, s0, run, id);
  }
}
