/** The write-back of mailbox records and invite bundles: request handlers change the map in memory and
    then mark the key dirty, while one flusher drains the dirty keys into the durable table. */
module WriteBack {
  import opened Tables

  /** A record; `lease` is the activity time, which some paths refresh without a mark.  Bundles have none. */
  datatype Rec<C> = Rec(core: C, lease: nat)

  datatype Entry<K, C> = Entry(key: K, value: Option<Rec<C>>)

  /** An upsert or a delete. */
  function Put<K, C>(m: map<K, Rec<C>>, k: K, v: Option<Rec<C>>): map<K, Rec<C>> {
    if v.Some? then m[k := v.value] else m - {k}
  }

  /** One write transaction: the entries in order. */
  function Apply<K, C>(table: map<K, Rec<C>>, batch: seq<Entry<K, C>>): map<K, Rec<C>>
    decreases |batch|
  {
    if batch == [] then table
    else var n := |batch| - 1; Put(Apply(table, batch[..n]), batch[n].key, batch[n].value)
  }

  predicate InBatch<K(==), C>(batch: seq<Entry<K, C>>, k: K) {
    exists i | 0 <= i < |batch| :: batch[i].key == k
  }

  lemma {:induction false} ApplyElsewhere<K, C>(table: map<K, Rec<C>>, batch: seq<Entry<K, C>>, k: K)
    requires !InBatch(batch, k)
    ensures Get(Apply(table, batch), k) == Get(table, k)
    decreases |batch|
  {
    if batch != [] {
      var n := |batch| - 1;
      assert batch[n].key != k;
      forall i | 0 <= i < n ensures batch[..n][i].key != k { assert batch[i].key != k; }
      ApplyElsewhere(table, batch[..n], k);
    }
  }

  /** The transaction's loop over the batch. */
  method WriteBatch<K(==), C>(table: map<K, Rec<C>>, batch: seq<Entry<K, C>>) returns (t: map<K, Rec<C>>)
    ensures t == Apply(table, batch)
  {
    t := table;
    for i := 0 to |batch|
      invariant t == Apply(table, batch[..i])
    {
      assert batch[..i + 1][..i] == batch[..i];
      match batch[i].value
      case Some(r) => t := t[batch[i].key := r];
      case None => t := t - {batch[i].key};
    }
    assert batch[..|batch|] == batch;
  }

  // ---------------------------------------------------------------- one call at a time

  /** The map, its dirty keys and the table, with nothing else running. */
  class Cached<K(!new, ==), C> {
    var live: map<K, Rec<C>>
    var dirty: set<K>
    var table: map<K, Rec<C>>

    /** Whatever differs is dirty. */
    ghost predicate Valid()
      reads this
    {
      forall k :: k !in dirty ==> Get(table, k) == Get(live, k)
    }

    /** On start the map is what the table holds. */
    constructor (stored: map<K, Rec<C>>)
      ensures Valid() && live == stored && table == stored && dirty == {}
    {
      live, dirty, table := stored, {}, stored;
    }

    /** Mutate, then mark. */
    method Change(k: K, v: Option<Rec<C>>)
      requires Valid()
      modifies this
      ensures Valid() && live == Put(old(live), k, v) && dirty == old(dirty) + {k} && table == old(table)
    {
      live := Put(live, k, v);
      dirty := dirty + {k};
    }

    /** Drain the dirty keys and write just those: the table catches up with the map. */
    method Flush()
      requires Valid()
      modifies this
      ensures Valid() && dirty == {} && live == old(live) && table == live
    {
      var batch := Drain();
      table := WriteBatch(table, batch);
      TablesEqual(table, live);
    }

    method Drain() returns (batch: seq<Entry<K, C>>)
      requires Valid()
      modifies this`dirty
      ensures dirty == {}
      ensures forall k :: Get(Apply(table, batch), k) == Get(live, k)
    {
      var keys := dirty;
      batch := [];
      while keys != {}
        invariant dirty == keys
        invariant forall k :: k !in dirty ==> Get(Apply(table, batch), k) == Get(live, k)
      {
        var k :| k in keys;
        keys := keys - {k};
        dirty := dirty - {k};
        assert (batch + [Entry(k, Get(live, k))])[..|batch|] == batch;
        batch := batch + [Entry(k, Get(live, k))];
      }
    }
  }

  lemma TablesEqual<K, C>(a: map<K, Rec<C>>, b: map<K, Rec<C>>)
    requires forall k :: Get(a, k) == Get(b, k)
    ensures a == b
  {
    assert forall k :: k in a <==> Get(a, k).Some?;
    assert forall k :: k in b <==> Get(b, k).Some?;
  }

  // ---------------------------------------------------------------- every interleaving

  datatype Flusher<K, C> =
    | Resting
    | Collecting(todo: seq<K>)
    | Draining(todo: seq<K>, batch: seq<Entry<K, C>>)
    | Reading(key: K, todo: seq<K>, batch: seq<Entry<K, C>>)

  /** `owed`: the key each handler has changed and not marked yet.  `lost`, for the record only: the keys
      whose last batch was not committed, with the value that batch had read. */
  datatype State<K, C> = State(live: map<K, Rec<C>>, table: map<K, Rec<C>>, dirty: set<K>,
                               owed: map<nat, K>, flusher: Flusher<K, C>, lost: map<K, Option<Rec<C>>>)

  datatype Action<K, C> =
    | Change(t: nat, key: K, value: Option<Rec<C>>)
    | Mark(t: nat)
    | Touch(key: K, lease: nat)
    | Begin
    | Collect(key: K)
    | Collected
    | Unmark
    | Read
    | Commit(ok: bool)

  function BatchOf<K, C>(f: Flusher<K, C>): seq<Entry<K, C>> {
    if f.Draining? || f.Reading? then f.batch else []
  }

  function BatchKeys<K, C>(batch: seq<Entry<K, C>>): set<K> {
    set i | 0 <= i < |batch| :: batch[i].key
  }

  lemma KeysOfBatch<K, C>(batch: seq<Entry<K, C>>, k: K)
    ensures k in BatchKeys(batch) <==> InBatch(batch, k)
  {
  }

  /** What a batch would have written, for the keys of the batch; the older losses for the others. */
  function Dropped<K, C>(s: State<K, C>): map<K, Option<Rec<C>>> {
    var batch := BatchOf(s.flusher);
    map k | k in BatchKeys(batch) + s.lost.Keys ::
      if k in BatchKeys(batch) then Get(Apply(s.table, batch), k) else s.lost[k]
  }

  /** An action that is not enabled leaves the state alone.  The dirty set may change while a flush copies
      it: each key it collects was dirty when it came by. */
  function Next<K, C>(s: State<K, C>, a: Action<K, C>): State<K, C> {
    match a
    case Change(t, k, v) =>
      if t in s.owed then s else s.(live := Put(s.live, k, v), owed := s.owed[t := k])
    case Mark(t) =>
      if t !in s.owed then s else s.(dirty := s.dirty + {s.owed[t]}, owed := s.owed - {t})
    case Touch(k, lease) =>
      if k !in s.live then s else s.(live := s.live[k := s.live[k].(lease := lease)])
    case Begin =>
      if !s.flusher.Resting? then s else s.(flusher := Collecting([]))
    case Collect(k) =>
      if !s.flusher.Collecting? || k !in s.dirty then s else s.(flusher := Collecting(s.flusher.todo + [k]))
    case Collected =>
      if !s.flusher.Collecting? then s else s.(flusher := Draining(s.flusher.todo, []))
    case Unmark =>
      if !s.flusher.Draining? || s.flusher.todo == [] then s
      else s.(dirty := s.dirty - {s.flusher.todo[0]},
              flusher := Reading(s.flusher.todo[0], s.flusher.todo[1..], s.flusher.batch))
    case Read =>
      if !s.flusher.Reading? then s
      else s.(flusher := Draining(s.flusher.todo, s.flusher.batch + [Entry(s.flusher.key, Get(s.live, s.flusher.key))]))
    case Commit(ok) =>
      if !s.flusher.Draining? || s.flusher.todo != [] then s
      else if ok then
        s.(table := Apply(s.table, s.flusher.batch), flusher := Resting, lost := s.lost - BatchKeys(s.flusher.batch))
      else s.(flusher := Resting, lost := Dropped(s))
  }

  function Run<K, C>(s: State<K, C>, run: seq<Action<K, C>>): State<K, C>
    decreases |run|
  {
    if run == [] then s else Run(Next(s, run[0]), run[1..])
  }

  /** Equal, or equal but for the activity time. */
  predicate Same<C(==)>(exact: bool, a: Option<Rec<C>>, b: Option<Rec<C>>) {
    if exact then a == b else (a.Some? <==> b.Some?) && (a.Some? ==> a.value.core == b.value.core)
  }

  predicate Owed<K(==), C>(s: State<K, C>, k: K) {
    exists t | t in s.owed :: s.owed[t] == k
  }

  /** What was last read of a key: by the batch at hand, by a batch that failed, or by the one whose value
      the table holds. */
  function LastRead<K, C>(s: State<K, C>, k: K): Option<Rec<C>> {
    var batch := BatchOf(s.flusher);
    if InBatch(batch, k) then Get(Apply(s.table, batch), k)
    else if k in s.lost then s.lost[k]
    else Get(s.table, k)
  }

  /** The map has what was last read of a key, or somebody still has the key to do. */
  predicate Settled<K(==), C(==)>(s: State<K, C>, exact: bool, k: K) {
    || Same(exact, Get(s.live, k), LastRead(s, k))
    || k in s.dirty
    || Owed(s, k)
    || (s.flusher.Reading? && s.flusher.key == k)
  }

  lemma HandlerSettles<K, C>(s: State<K, C>, a: Action<K, C>, exact: bool, k: K)
    requires Settled(s, exact, k) && (a.Change? || a.Mark? || (a.Touch? && !exact))
    ensures Settled(Next(s, a), exact, k)
  {
    hide Apply;
    if Owed(s, k) {
      var t :| t in s.owed && s.owed[t] == k;
      if t in Next(s, a).owed { assert Next(s, a).owed[t] == k; }
    }
    if a.Change? && a.t !in s.owed {
      assert Next(s, a).owed[a.t] == a.key;
    }
  }

  lemma OneMoreEntry<K, C>(table: map<K, Rec<C>>, batch: seq<Entry<K, C>>, e: Entry<K, C>, k: K)
    ensures Apply(table, batch + [e]) == Put(Apply(table, batch), e.key, e.value)
    ensures InBatch(batch + [e], k) ==> InBatch(batch, k) || e.key == k
    ensures InBatch(batch, k) ==> InBatch(batch + [e], k)
  {
    var batch' := batch + [e];
    assert batch'[..|batch|] == batch;
    if InBatch(batch', k) && k != e.key {
      var i :| 0 <= i < |batch'| && batch'[i].key == k;
      assert batch[i].key == k;
    }
    if InBatch(batch, k) {
      var i :| 0 <= i < |batch| && batch[i].key == k;
      assert batch'[i].key == k;
    }
  }

  /** A key read into the batch is up to date with it. */
  lemma ReadSettles<K, C>(s: State<K, C>, exact: bool, k: K)
    requires Settled(s, exact, k) && s.flusher.Reading?
    ensures Settled(Next(s, Read), exact, k)
  {
    OneMoreEntry(s.table, s.flusher.batch, Entry(s.flusher.key, Get(s.live, s.flusher.key)), k);
    hide Apply, InBatch;
  }

  lemma SettledKept<K, C>(s: State<K, C>, a: Action<K, C>, exact: bool, k: K)
    requires Settled(s, exact, k)
    requires exact ==> !a.Touch?
    ensures Settled(Next(s, a), exact, k)
  {
    if a.Change? || a.Mark? || a.Touch? {
      HandlerSettles(s, a, exact, k);
    } else if a.Read? && s.flusher.Reading? {
      ReadSettles(s, exact, k);
    } else if a.Commit? && s.flusher.Draining? && s.flusher.todo == [] {
      CommitSettles(s, a.ok, exact, k);
    } else {
      hide Apply, Same;
    }
  }

  /** Committed or not, a batch leaves what was last read of each key on record: in the table or among
      the losses. */
  lemma CommitSettles<K, C>(s: State<K, C>, ok: bool, exact: bool, k: K)
    requires Settled(s, exact, k) && s.flusher.Draining? && s.flusher.todo == []
    ensures Settled(Next(s, Commit(ok)), exact, k)
  {
    KeysOfBatch(s.flusher.batch, k);
    if !InBatch(s.flusher.batch, k) { ApplyElsewhere(s.table, s.flusher.batch, k); }
    hide Apply, InBatch, BatchKeys;
  }

  lemma {:induction false} RunSettled<K, C>(s: State<K, C>, run: seq<Action<K, C>>, exact: bool, k: K)
    requires Settled(s, exact, k)
    requires exact ==> forall a :: a in run ==> !a.Touch?
    ensures Settled(Run(s, run), exact, k)
    decreases |run|
  {
    if run != [] {
      SettledKept(s, run[0], exact, k);
      RunSettled(Next(s, run[0]), run[1..], exact, k);
    }
  }

  /** Just started: the map was loaded from the table, give or take an activity time. */
  ghost predicate Started<K(!new), C(!new)>(s: State<K, C>, exact: bool) {
    && (forall k :: Same(exact, Get(s.live, k), Get(s.table, k)))
    && s.dirty == {} && s.owed == map[] && s.flusher.Resting? && s.lost == map[]
  }

  predicate Quiet<K(==), C(==)>(s: State<K, C>) {
    s.dirty == {} && s.owed == map[] && s.flusher.Resting?
  }

  /** At every moment of every interleaving, failed commits or not: the map has what was last read of a key,
      or the key is dirty, awaits its mark, or is off the dirty set and about to be read. */
  lemma AlwaysSettled<K(!new), C(!new)>(s0: State<K, C>, run: seq<Action<K, C>>, exact: bool)
    requires Started(s0, exact)
    requires exact ==> forall a :: a in run ==> !a.Touch?
    ensures forall k :: Settled(Run(s0, run), exact, k)
  {
    forall k ensures Settled(Run(s0, run), exact, k) {
      assert Same(exact, Get(s0.live, k), Get(s0.table, k));
      RunSettled(s0, run, exact, k);
    }
  }

  /** When every handler has marked and the flusher has finished, a key's latest value is in the table
      exactly when the last batch with that key was committed or had read what the table holds.  Values
      are equal up to the activity times refreshed without a mark, or exactly when there were none. */
  lemma LatestInTable<K(!new), C(!new)>(s0: State<K, C>, run: seq<Action<K, C>>, exact: bool, k: K)
    requires Started(s0, exact) && Quiet(Run(s0, run))
    requires exact ==> forall a :: a in run ==> !a.Touch?
    ensures var s := Run(s0, run);
            Same(exact, Get(s.live, k), Get(s.table, k)) <==> k !in s.lost || Same(exact, s.lost[k], Get(s.table, k))
  {
    AlwaysSettled(s0, run, exact);
    assert Settled(Run(s0, run), exact, k);
    hide Run;
  }

  lemma {:induction false} NoFailureNoLoss<K, C>(s: State<K, C>, run: seq<Action<K, C>>)
    requires s.lost == map[] && forall a :: a in run ==> a != Commit(false)
    ensures Run(s, run).lost == map[]
    decreases |run|
  {
    if run != [] {
      var a := run[0];
      assert a in run;
      if a.Commit? { assert a.ok; }
      assert Next(s, a).lost == map[];
      forall b | b in run[1..] ensures b != Commit(false) { assert b in run; }
      NoFailureNoLoss(Next(s, run[0]), run[1..]);
    }
  }

  /** So without failed commits the table equals the map: exactly, or up to those activity times. */
  lemma NothingLost<K(!new), C(!new)>(s0: State<K, C>, run: seq<Action<K, C>>, exact: bool)
    requires Started(s0, exact) && Quiet(Run(s0, run))
    requires exact ==> forall a :: a in run ==> !a.Touch?
    requires forall a :: a in run ==> a != Commit(false)
    ensures var s := Run(s0, run);
            && (forall k :: Same(exact, Get(s.live, k), Get(s.table, k)))
            && s.live.Keys == s.table.Keys
            && (exact ==> s.live == s.table)
  {
    NoFailureNoLoss(s0, run);
    var s := Run(s0, run);
    forall k ensures Same(exact, Get(s.live, k), Get(s.table, k)) && (k in s.live <==> k in s.table) {
      LatestInTable(s0, run, exact, k);
    }
    hide Run;
    if exact { TablesEqual(s.live, s.table); }
  }

  // ---------------------------------------------------------------- what the handlers last said

  /** What the last change of a key in the run said, a deletion being `None`; a handler that still owes a mark
      changes nothing. */
  function LastChange<K(==), C>(s: State<K, C>, run: seq<Action<K, C>>, k: K, before: Option<Rec<C>>): Option<Rec<C>>
    decreases |run|
  {
    if run == [] then before
    else
      var a := run[0];
      LastChange(Next(s, a), run[1..], k, if a.Change? && a.key == k && a.t !in s.owed then a.value else before)
  }

  lemma {:induction false} MapHasLastChange<K, C>(s: State<K, C>, run: seq<Action<K, C>>, exact: bool, k: K,
                                                  before: Option<Rec<C>>)
    requires Same(exact, Get(s.live, k), before)
    requires exact ==> forall a :: a in run ==> !a.Touch?
    ensures Same(exact, Get(Run(s, run).live, k), LastChange(s, run, k, before))
    decreases |run|
  {
    if run != [] {
      var a := run[0];
      assert a in run && forall b :: b in run[1..] ==> b in run;
      hide Apply, Dropped;
      MapHasLastChange(Next(s, a), run[1..], exact, k,
                       if a.Change? && a.key == k && a.t !in s.owed then a.value else before);
    }
  }

  /** The promise in full: unless a commit failed, once all is quiet the table has for every key what the last
      change of it said, be that a record or a deletion, and what it started with where there was none. */
  lemma LastChangeInTable<K(!new), C(!new)>(s0: State<K, C>, run: seq<Action<K, C>>, exact: bool, k: K)
    requires Started(s0, exact) && Quiet(Run(s0, run))
    requires exact ==> forall a :: a in run ==> !a.Touch?
    requires forall a :: a in run ==> a != Commit(false)
    ensures Same(exact, LastChange(s0, run, k, Get(s0.table, k)), Get(Run(s0, run).table, k))
  {
    MapHasLastChange(s0, run, exact, k, Get(s0.table, k));
    NothingLost(s0, run, exact);
    hide Run, LastChange, Quiet;
  }

  // ---------------------------------------------------------------- a flush that fails

  /** No handler and no flush has the key in hand. */
  predicate Unattended<K(==), C>(s: State<K, C>, k: K) {
    && k !in s.dirty && !Owed(s, k)
    && !InBatch(BatchOf(s.flusher), k)
    && !(s.flusher.Reading? && s.flusher.key == k)
    && (!s.flusher.Resting? ==> k !in s.flusher.todo)
  }

  /** Nobody attends to a key of itself: until it is changed its row stays, and so does what the map has. */
  lemma UnattendedKept<K, C>(s: State<K, C>, a: Action<K, C>, k: K)
    requires Unattended(s, k) && !(a.Change? && a.key == k)
    ensures var s' := Next(s, a);
            Unattended(s', k) && Get(s'.table, k) == Get(s.table, k) && Same(false, Get(s'.live, k), Get(s.live, k))
  {
    hide Apply, InBatch, Owed, Dropped;
    NotOwed(s, a, k);
    NothingRead<K, C>(k);
    if a.Commit? { ApplyElsewhere(s.table, BatchOf(s.flusher), k); }
    if a.Read? && s.flusher.Reading? {
      OneMoreEntry(s.table, s.flusher.batch, Entry(s.flusher.key, Get(s.live, s.flusher.key)), k);
    }
  }

  lemma NothingRead<K, C>(k: K)
    ensures var none: seq<Entry<K, C>> := []; !InBatch(none, k)
  {
  }

  lemma NotOwed<K, C>(s: State<K, C>, a: Action<K, C>, k: K)
    requires !Owed(s, k) && !(a.Change? && a.key == k)
    ensures !Owed(Next(s, a), k)
    ensures a.Mark? && a.t in s.owed ==> s.owed[a.t] != k
  {
    forall t | t in Next(s, a).owed ensures Next(s, a).owed[t] != k {
      if t in s.owed { assert s.owed[t] != k; }
    }
    if a.Mark? && a.t in s.owed { assert s.owed[a.t] != k; }
  }

  lemma {:induction false} UnattendedRun<K, C>(s: State<K, C>, run: seq<Action<K, C>>, k: K)
    requires Unattended(s, k) && forall a :: a in run ==> !(a.Change? && a.key == k)
    ensures var s' := Run(s, run);
            Unattended(s', k) && Get(s'.table, k) == Get(s.table, k) && Same(false, Get(s'.live, k), Get(s.live, k))
    decreases |run|
  {
    if run != [] {
      UnattendedKept(s, run[0], k);
      hide Unattended, Next;
      UnattendedRun(Next(s, run[0]), run[1..], k);
    }
  }

  /** When a commit fails, a key of its batch that nobody has changed since it was read is attended to no
      more: whatever follows, until a handler changes that key the table stays as it was, and it is
      behind exactly if it was behind. */
  lemma FailedFlushForgets<K, C>(s: State<K, C>, k: K, later: seq<Action<K, C>>)
    requires s.flusher.Draining? && s.flusher.todo == [] && InBatch(s.flusher.batch, k)
    requires k !in s.dirty && !Owed(s, k)
    requires forall a :: a in later ==> !(a.Change? && a.key == k)
    ensures var s' := Run(Next(s, Commit(false)), later);
            && Unattended(s', k) && Get(s'.table, k) == Get(s.table, k)
            && (Same(false, Get(s'.live, k), Get(s'.table, k)) <==> Same(false, Get(s.live, k), Get(s.table, k)))
  {
    var s1 := Next(s, Commit(false));
    assert s1.owed == s.owed;
    assert !Owed(s1, k) by {
      forall t | t in s1.owed ensures s1.owed[t] != k { assert s.owed[t] != k; }
    }
    UnattendedRun(s1, later, k);
    hide Run;
  }

  lemma RunFrom<K, C>(s: State<K, C>, run: seq<Action<K, C>>, i: nat)
    requires i < |run|
    ensures Run(s, run[i..]) == Run(Next(s, run[i]), run[i + 1..])
  {
    assert run[i..][0] == run[i] && run[i..][1..] == run[i + 1..];
  }

  /** A handler changes one key and the flush that follows fails to commit. */
  function FailingRun<K, C>(k: K, r: Rec<C>): seq<Action<K, C>> {
    [Change(0, k, Some(r)), Mark(0), Begin, Collect(k), Collected, Unmark, Read, Commit(false)]
  }

  lemma ChangeAndMark<K, C>(k: K, r: Rec<C>)
    ensures var s0: State<K, C> := State(map[], map[], {}, map[], Resting, map[]);
            Next(Next(s0, Change(0, k, Some(r))), Mark(0)) == State(map[k := r], map[], {k}, map[], Resting, map[])
  {
    var owed: map<nat, K> := map[][0 := k];
    assert owed - {0} == map[];
  }

  lemma CollectOne<K, C>(k: K, r: Rec<C>)
    ensures var s2: State<K, C> := State(map[k := r], map[], {k}, map[], Resting, map[]);
            Next(Next(Next(s2, Begin), Collect(k)), Collected)
            == State(map[k := r], map[], {k}, map[], Draining([k], []), map[])
  {
    assert [] + [k] == [k];
  }

  lemma ReadOne<K, C>(k: K, r: Rec<C>)
    ensures var s5: State<K, C> := State(map[k := r], map[], {k}, map[], Draining([k], []), map[]);
            Next(Next(s5, Unmark), Read)
            == State(map[k := r], map[], {}, map[], Draining([], [Entry(k, Some(r))]), map[])
  {
    var none: seq<Entry<K, C>> := [];
    assert [k][1..] == [] && {k} - {k} == {};
    assert none + [Entry(k, Some(r))] == [Entry(k, Some(r))];
  }

  lemma FailOne<K, C>(k: K, r: Rec<C>)
    ensures var s7: State<K, C> := State(map[k := r], map[], {}, map[], Draining([], [Entry(k, Some(r))]), map[]);
            Next(s7, Commit(false)) == State(map[k := r], map[], {}, map[], Resting, map[k := Some(r)])
  {
    var s7: State<K, C> := State(map[k := r], map[], {}, map[], Draining([], [Entry(k, Some(r))]), map[]);
    var batch := s7.flusher.batch;
    assert batch[0].key == k && batch[..0] == [];
    assert BatchKeys(batch) == {k};
    assert Apply(s7.table, batch) == Put(Apply(s7.table, []), k, Some(r));
    assert Dropped(s7) == map[k := Some(r)];
  }

  lemma FailingRunEnds<K, C>(s0: State<K, C>, k: K, r: Rec<C>)
    requires s0 == State(map[], map[], {}, map[], Resting, map[])
    ensures Run(s0, FailingRun(k, r)) == State(map[k := r], map[], {}, map[], Resting, map[k := Some(r)])
  {
    hide Next;
    var run: seq<Action<K, C>> := FailingRun(k, r);
    assert run[0..] == run;
    RunFrom(s0, run, 0); RunFrom(Next(s0, run[0]), run, 1);
    ChangeAndMark(k, r);
    var s2: State<K, C> := State(map[k := r], map[], {k}, map[], Resting, map[]);
    RunFrom(s2, run, 2); RunFrom(Next(s2, run[2]), run, 3); RunFrom(Next(Next(s2, run[2]), run[3]), run, 4);
    CollectOne(k, r);
    var s5: State<K, C> := State(map[k := r], map[], {k}, map[], Draining([k], []), map[]);
    RunFrom(s5, run, 5); RunFrom(Next(s5, run[5]), run, 6);
    ReadOne(k, r);
    var s7: State<K, C> := State(map[k := r], map[], {}, map[], Draining([], [Entry(k, Some(r))]), map[]);
    RunFrom(s7, run, 7);
    FailOne(k, r);
  }

  /** It happens: after this run everything is quiet, and the table lacks what the map has. */
  lemma FailedFlushHappens<K(!new), C(!new)>(s0: State<K, C>, k: K, r: Rec<C>)
    requires s0 == State(map[], map[], {}, map[], Resting, map[])
    ensures Started(s0, true) && Quiet(Run(s0, FailingRun(k, r)))
    ensures Run(s0, FailingRun(k, r)).live == map[k := r] && Run(s0, FailingRun(k, r)).table == map[]
  {
    FailingRunEnds(s0, k, r);
  }
}
