/** Whole runs of the queue store: what becomes of every envelope ever enqueued. */
module QueueHistory {
  import opened Tables
  import opened Keys
  import opened QueueSpec
  import opened QueueTable
  import opened QueueStore

  /** `Send` is the guarded enqueue of the request handler. */
  datatype Op =
    | Enqueue(mailbox: string, envelope: Envelope)
    | Send(mailbox: string, envelope: Envelope)
    | Flush(mailbox: string)
    | Ack(mailbox: string, ids: seq<Uuid>)
    | Purge(mailbox: string)
    | Sweep(now: nat)
    | Reopen

  /** A send that would pass the global backstop queues nothing; any other is an enqueue. */
  ghost function Admitted(qs: Queues, op: Op): (o: Op)
    ensures !o.Send?
  {
    match op
    case Send(m, e) => if TotalBytes(qs) + |e.ciphertext| > GLOBAL_QUEUE_DISK_CAP_BYTES then Flush(m) else Enqueue(m, e)
    case _ => op
  }

  ghost function Apply(qs: Queues, op: Op): Queues {
    Effect(qs, Admitted(qs, op))
  }

  function Effect(qs: Queues, op: Op): Queues
    requires !op.Send?
  {
    match op
    case Enqueue(m, e) => EnqueueSpec(qs, m, e)
    case Flush(_) => qs
    case Ack(m, ids) => AckSpec(qs, m, IdSet(ids))
    case Purge(m) => PurgeSpec(qs, m)
    case Sweep(now) => SweepSpec(qs, SatSub(now, QUEUE_TTL_MS))
    case Reopen => qs
  }

  // ---------------------------------------------------------------- bookkeeping

  /** The four ways an envelope can leave its queue. */
  datatype Fate = Acked | Evicted | Expired | Purged

  /** What was enqueued, where, and as the how-manieth envelope of the run. */
  datatype Sent = Sent(mailbox: string, envelope: Envelope, ticket: nat)

  datatype History = History(queues: Queues, sent: map<Uuid, Sent>, fate: map<Uuid, Fate>)

  function Ids(q: seq<Envelope>): set<Uuid> { set i | 0 <= i < |q| :: q[i].id }

  function Dropped(q: seq<Envelope>, keep: Envelope -> bool): set<Uuid> {
    set i | 0 <= i < |q| && !keep(q[i]) :: q[i].id
  }

  function DroppedAnywhere(qs: Queues, keep: Envelope -> bool): set<Uuid> {
    set m, i | m in qs && 0 <= i < |qs[m]| && !keep(qs[m][i]) :: qs[m][i].id
  }

  /** The envelopes an operation takes out, with the reason. */
  function Leaving(qs: Queues, op: Op): map<Uuid, Fate> {
    match op
    case Enqueue(m, e) =>
      var q := QueueOf(qs, m);
      map id | id in Ids(q[..QueueSpec.Evicted(q, |e.ciphertext|)]) :: Evicted
    case Ack(m, ids) => map id | id in Dropped(QueueOf(qs, m), NotAmong(IdSet(ids))) :: Acked
    case Purge(m) => map id | id in Ids(QueueOf(qs, m)) :: Purged
    case Sweep(now) => map id | id in DroppedAnywhere(qs, QueuedSince(SatSub(now, QUEUE_TTL_MS))) :: Expired
    case _ => map[]
  }

  ghost function Record(h: History, op: Op): History {
    Book(h, Admitted(h.queues, op))
  }

  function Book(h: History, op: Op): History
    requires !op.Send?
  {
    History(Effect(h.queues, op),
            if op.Enqueue? then h.sent[op.envelope.id := Sent(op.mailbox, op.envelope, |h.sent|)] else h.sent,
            h.fate + Leaving(h.queues, op))
  }

  ghost function RecordAll(h: History, ops: seq<Op>): History {
    if ops == [] then h else Record(RecordAll(h, ops[..|ops| - 1]), ops[|ops| - 1])
  }

  /** Mailbox names are validated, and envelope ids are fresh. */
  predicate Legal(h: History, op: Op) {
    match op
    case Enqueue(m, e) => ColonFree(m) && e.id !in h.sent
    case Send(m, e) => ColonFree(m) && e.id !in h.sent
    case Flush(m) => ColonFree(m)
    case Ack(m, _) => ColonFree(m)
    case Purge(m) => ColonFree(m)
    case _ => true
  }

  ghost predicate LegalRun(h: History, ops: seq<Op>) {
    ops == [] || (LegalRun(h, ops[..|ops| - 1]) && Legal(RecordAll(h, ops[..|ops| - 1]), ops[|ops| - 1]))
  }

  // ---------------------------------------------------------------- the run invariant

  /** An envelope sitting in a queue is the one that was sent there, and nothing has happened to it. */
  ghost predicate Waiting(h: History, m: string, e: Envelope) {
    e.id in h.sent && h.sent[e.id].mailbox == m && h.sent[e.id].envelope == e && e.id !in h.fate
  }

  ghost predicate Tidy(h: History, m: string, q: seq<Envelope>) {
    && (forall i :: 0 <= i < |q| ==> Waiting(h, m, q[i]))
    && (forall i, j :: 0 <= i < j < |q| ==> h.sent[q[i].id].ticket < h.sent[q[j].id].ticket)
  }

  /** Every queue holds its own waiting envelopes in enqueue order, and every envelope ever sent is
      waiting in its mailbox's queue or has met a fate. */
  ghost predicate Conserved(h: History) {
    && (forall m :: m in h.queues ==> Tidy(h, m, h.queues[m]))
    && h.fate.Keys <= h.sent.Keys
    && (forall id :: id in h.sent && id !in h.fate ==> id in Ids(QueueOf(h.queues, h.sent[id].mailbox)))
    && (forall id :: id in h.sent ==> h.sent[id].ticket < |h.sent|)
  }

  /** Filtering a tidy queue drops exactly the envelopes the filter rejects. */
  lemma {:induction false} FilterIds(q: seq<Envelope>, keep: Envelope -> bool)
    requires forall i, j :: 0 <= i < j < |q| ==> q[i].id != q[j].id
    ensures Ids(Filter(q, keep)) == Ids(q) - Dropped(q, keep)
  {
    var f := Filter(q, keep);
    FilterMember(q, keep);
    forall id ensures id in Ids(f) <==> id in Ids(q) && id !in Dropped(q, keep) {
      if id in Ids(f) {
        var i :| 0 <= i < |f| && f[i].id == id;
        assert f[i] in q;
        var j :| 0 <= j < |q| && q[j] == f[i];
        assert keep(q[j]);
      }
      if id in Ids(q) && id !in Dropped(q, keep) {
        var j :| 0 <= j < |q| && q[j].id == id;
        assert keep(q[j]) && q[j] in f;
        var i :| 0 <= i < |f| && f[i] == q[j];
      }
    }
  }

  lemma TidyDistinct(h: History, m: string, q: seq<Envelope>)
    requires Tidy(h, m, q)
    ensures forall i, j :: 0 <= i < j < |q| ==> q[i].id != q[j].id
  {
    forall i, j | 0 <= i < j < |q| ensures q[i].id != q[j].id {
      assert h.sent[q[i].id].ticket < h.sent[q[j].id].ticket;
    }
  }

  /** Filtering keeps the order, and what is kept stays waiting when only dropped ids meet a fate. */
  lemma {:induction false} FilterTidy(h: History, h': History, m: string, q: seq<Envelope>, keep: Envelope -> bool)
    requires Tidy(h, m, q) && h'.sent == h.sent
    requires forall i :: 0 <= i < |q| && keep(q[i]) ==> q[i].id !in h'.fate
    ensures Tidy(h', m, Filter(q, keep))
  {
    if q != [] {
      var r := q[1..];
      assert forall i :: 0 <= i < |r| ==> r[i] == q[i + 1];
      FilterTidy(h, h', m, r, keep);
      var f := Filter(r, keep);
      assert Waiting(h, m, q[0]);
      if keep(q[0]) {
        forall j | 0 <= j < |f| ensures h.sent[q[0].id].ticket < h'.sent[f[j].id].ticket {
          FilterMember(r, keep);
          assert f[j] in r;
        }
        assert Filter(q, keep) == [q[0]] + f;
        assert Waiting(h', m, q[0]);
      } else {
        assert Filter(q, keep) == f;
      }
    }
  }

  /** One legal operation keeps the books, and never changes a fate once met. */
  lemma RecordConserves(h: History, op: Op)
    requires Conserved(h) && Legal(h, op)
    ensures Conserved(Record(h, op)) && FatesKept(h, Record(h, op))
  {
    BookConserves(h, Admitted(h.queues, op));
    hide Conserved, FatesKept, Book;
  }

  lemma BookConserves(h: History, op: Op)
    requires Conserved(h) && Legal(h, op) && !op.Send?
    ensures Conserved(Book(h, op)) && FatesKept(h, Book(h, op))
  {
    hide Conserved, FatesKept, Book;
    match op
    case Enqueue(m, e) => EnqueueConserves(h, m, e);
    case Ack(m, ids) => AckConserves(h, m, ids);
    case Purge(m) => PurgeConserves(h, m);
    case Sweep(now) => SweepConserves(h, now);
    case Flush(_) => NothingBooked(h, op);
    case Reopen => NothingBooked(h, op);
  }

  lemma NothingBooked(h: History, op: Op)
    requires op.Flush? || op.Reopen?
    ensures Book(h, op) == h && FatesKept(h, h)
  {
  }

  ghost predicate FatesKept(h: History, h': History) {
    forall id :: id in h.fate ==> id in h'.fate && h'.fate[id] == h.fate[id]
  }

  lemma AckConserves(h: History, m: string, ids: seq<Uuid>)
    requires Conserved(h)
    ensures Conserved(Book(h, Ack(m, ids))) && FatesKept(h, Book(h, Ack(m, ids)))
  {
    hide Conserved;
    var h', keep := Book(h, Ack(m, ids)), NotAmong(IdSet(ids));
    if m in h.queues {
      assert forall o :: o in {m} && o in h.queues ==>
               Dropped(h.queues[o], keep) == Dropped(QueueOf(h.queues, m), keep);
      FilteringConserves(h, h', {m}, keep);
    } else {
      assert Leaving(h.queues, Ack(m, ids)) == map[];
      assert h' == h;
    }
  }

  lemma PurgeConserves(h: History, m: string)
    requires Conserved(h)
    ensures Conserved(Book(h, Purge(m))) && FatesKept(h, Book(h, Purge(m)))
  {
    hide Conserved, Filtered;
    if m in h.queues {
      PurgeFilters(h, m);
      hide Book;
      FilteringConserves(h, Book(h, Purge(m)), {m}, NotAmong(Ids(h.queues[m])));
    } else {
      assert Leaving(h.queues, Purge(m)) == map[];
      assert Book(h, Purge(m)) == h;
    }
  }

  lemma PurgeFilters(h: History, m: string)
    requires m in h.queues
    ensures Filtered(h, Book(h, Purge(m)), {m}, NotAmong(Ids(h.queues[m])))
  {
    PurgeIsFilter(h.queues[m]);
    assert forall o :: o in {m} ==> Dropped(h.queues[o], NotAmong(Ids(h.queues[m]))) == Ids(h.queues[m]);
    hide Dropped, Ids, Filter, NotAmong;
  }

  lemma SweepConserves(h: History, now: nat)
    requires Conserved(h)
    ensures Conserved(Book(h, Sweep(now))) && FatesKept(h, Book(h, Sweep(now)))
  {
    hide Conserved, Filtered, Book;
    SweepFilters(h, now);
    FilteringConserves(h, Book(h, Sweep(now)), h.queues.Keys, QueuedSince(SatSub(now, QUEUE_TTL_MS)));
  }

  lemma SweepFilters(h: History, now: nat)
    ensures Filtered(h, Book(h, Sweep(now)), h.queues.Keys, QueuedSince(SatSub(now, QUEUE_TTL_MS)))
  {
    var keep := QueuedSince(SatSub(now, QUEUE_TTL_MS));
    forall id ensures id in DroppedAnywhere(h.queues, keep) <==>
                      exists m :: m in h.queues.Keys && id in Dropped(h.queues[m], keep)
    {
      AnyDropped(h.queues, keep, id);
    }
    hide DroppedAnywhere, Dropped, Filter;
  }

  lemma AnyDropped(qs: Queues, keep: Envelope -> bool, id: Uuid)
    ensures id in DroppedAnywhere(qs, keep) <==> exists m :: m in qs.Keys && id in Dropped(qs[m], keep)
  {
    if id in DroppedAnywhere(qs, keep) {
      var m, i :| m in qs && 0 <= i < |qs[m]| && !keep(qs[m][i]) && qs[m][i].id == id;
      assert m in qs.Keys && id in Dropped(qs[m], keep);
    }
  }

  lemma PurgeIsFilter(q: seq<Envelope>)
    ensures Filter(q, NotAmong(Ids(q))) == [] && Dropped(q, NotAmong(Ids(q))) == Ids(q)
  {
    FilterSuffix(q, NotAmong(Ids(q)), |q|);
  }

  /** Acks, purges and sweeps all filter some of the queues. */
  ghost predicate Filtered(h: History, h': History, touched: set<string>, keep: Envelope -> bool) {
    && h'.sent == h.sent && touched <= h.queues.Keys && h'.queues.Keys == h.queues.Keys
    && (forall m :: m in h.queues ==> h'.queues[m] == if m in touched then Filter(h.queues[m], keep) else h.queues[m])
    && (forall id :: id in h'.fate <==> id in h.fate || exists m :: m in touched && id in Dropped(h.queues[m], keep))
    && (forall id :: id in h.fate && (forall m :: m in touched ==> id !in Dropped(h.queues[m], keep)) ==>
          h'.fate[id] == h.fate[id])
  }

  lemma FilteringTidy(h: History, h': History, touched: set<string>, keep: Envelope -> bool, m: string)
    requires Conserved(h) && Filtered(h, h', touched, keep) && m in h.queues
    ensures Tidy(h', m, h'.queues[m])
  {
    var q := h.queues[m];
    forall i | 0 <= i < |q| && (m in touched ==> keep(q[i])) ensures q[i].id !in h'.fate {
      assert Waiting(h, m, q[i]);
      forall o | o in touched ensures q[i].id !in Dropped(h.queues[o], keep) {
        DroppedElsewhere(h, m, q, i, o, keep);
      }
    }
    if m in touched {
      FilterTidy(h, h', m, q, keep);
    } else {
      assert forall i :: 0 <= i < |q| ==> Waiting(h, m, q[i]) && Waiting(h', m, q[i]);
    }
  }

  lemma FilteringFates(h: History, h': History, touched: set<string>, keep: Envelope -> bool)
    requires Conserved(h) && Filtered(h, h', touched, keep)
    ensures FatesKept(h, h') && h'.fate.Keys <= h'.sent.Keys
  {
    forall id | id in h.fate ensures h'.fate[id] == h.fate[id] {
      forall m | m in touched ensures id !in Dropped(h.queues[m], keep) {
        assert forall i :: 0 <= i < |h.queues[m]| ==> Waiting(h, m, h.queues[m][i]);
      }
    }
    forall id | id in h'.fate ensures id in h'.sent {
      if id !in h.fate {
        var m :| m in touched && id in Dropped(h.queues[m], keep);
        var i :| 0 <= i < |h.queues[m]| && h.queues[m][i].id == id;
        assert Waiting(h, m, h.queues[m][i]);
      }
    }
  }

  lemma FilteringAccounted(h: History, h': History, touched: set<string>, keep: Envelope -> bool, id: Uuid)
    requires Conserved(h) && Filtered(h, h', touched, keep) && id in h'.sent && id !in h'.fate
    ensures id in Ids(QueueOf(h'.queues, h'.sent[id].mailbox))
  {
    var m := h.sent[id].mailbox;
    assert id in Ids(QueueOf(h.queues, m));
    TidyDistinct(h, m, h.queues[m]);
    FilterIds(h.queues[m], keep);
    hide Ids, Filter, Tidy;
  }

  lemma FilteringConserves(h: History, h': History, touched: set<string>, keep: Envelope -> bool)
    requires Conserved(h) && Filtered(h, h', touched, keep)
    ensures Conserved(h') && FatesKept(h, h')
  {
    FilteringFates(h, h', touched, keep);
    forall m | m in h.queues ensures Tidy(h', m, h'.queues[m]) {
      FilteringTidy(h, h', touched, keep, m);
    }
    forall id | id in h'.sent && id !in h'.fate ensures id in Ids(QueueOf(h'.queues, h'.sent[id].mailbox)) {
      FilteringAccounted(h, h', touched, keep, id);
    }
    hide Tidy, Ids, Dropped, Filter, FatesKept;
  }

  /** A kept envelope is not among those dropped, here or in another mailbox. */
  lemma DroppedElsewhere(h: History, m: string, q: seq<Envelope>, i: nat, o: string, keep: Envelope -> bool)
    requires Conserved(h) && m in h.queues && q == h.queues[m] && i < |q| && o in h.queues
    requires o == m ==> keep(q[i])
    ensures q[i].id !in Dropped(h.queues[o], keep)
  {
    assert Waiting(h, m, q[i]);
    forall j | 0 <= j < |h.queues[o]| && h.queues[o][j].id == q[i].id ensures keep(h.queues[o][j]) {
      assert Waiting(h, o, h.queues[o][j]);
    }
  }

  lemma EnqueueConserves(h: History, m: string, e: Envelope)
    requires Conserved(h) && e.id !in h.sent
    ensures Conserved(Book(h, Enqueue(m, e))) && FatesKept(h, Book(h, Enqueue(m, e)))
  {
    EnqueueRecorded(h, m, e);
    var q := QueueOf(h.queues, m);
    var n := QueueSpec.Evicted(q, |e.ciphertext|);
    hide Conserved, Enqueued, Book;
    EnqueueBooks(h, Book(h, Enqueue(m, e)), m, e, q, n);
  }

  lemma EnqueueRecorded(h: History, m: string, e: Envelope)
    ensures var q := QueueOf(h.queues, m);
            Enqueued(h, Book(h, Enqueue(m, e)), m, e, q, QueueSpec.Evicted(q, |e.ciphertext|))
  {
  }

  lemma EnqueueBooks(h: History, h': History, m: string, e: Envelope, q: seq<Envelope>, n: nat)
    requires Conserved(h) && e.id !in h.sent && Enqueued(h, h', m, e, q, n)
    ensures Conserved(h') && FatesKept(h, h')
  {
    EnqueueQueues(h, h', m, e, q, n);
    EvictedWereWaiting(h, m, q, n);
    EnqueueFates(h, h', e, Ids(q[..n]));
    EnqueueAccounted(h, h', m, e, q, n);
    EnqueueTickets(h, h', m, e, q, n);
    hide Ids, Tidy, Enqueued;
  }

  lemma EnqueueFates(h: History, h': History, e: Envelope, gone: set<Uuid>)
    requires h.fate.Keys <= h.sent.Keys && gone <= h.sent.Keys && gone !! h.fate.Keys
    requires h.sent.Keys <= h'.sent.Keys && h'.fate == h.fate + map id | id in gone :: Evicted
    ensures FatesKept(h, h') && h'.fate.Keys <= h'.sent.Keys
  {
    FatesGrow(h.fate, gone, h.sent.Keys);
  }

  lemma FatesGrow(fate: map<Uuid, Fate>, gone: set<Uuid>, sent: set<Uuid>)
    requires gone <= sent && fate.Keys <= sent && fate.Keys !! gone
    ensures var fate' := fate + map id | id in gone :: Evicted;
            fate'.Keys <= sent && forall id :: id in fate ==> id in fate' && fate'[id] == fate[id]
  {
  }

  lemma EnqueueTickets(h: History, h': History, m: string, e: Envelope, q: seq<Envelope>, n: nat)
    requires Conserved(h) && e.id !in h.sent && Enqueued(h, h', m, e, q, n)
    ensures forall id :: id in h'.sent ==> h'.sent[id].ticket < |h'.sent|
  {
    hide Ids, Tidy;
    assert h'.sent.Keys == h.sent.Keys + {e.id};
    assert |h'.sent| == |h'.sent.Keys| && |h.sent| == |h.sent.Keys|;
  }

  /** The books after an enqueue that evicts the first `n` envelopes of `q`. */
  ghost predicate Enqueued(h: History, h': History, m: string, e: Envelope, q: seq<Envelope>, n: nat) {
    && q == QueueOf(h.queues, m) && n <= |q|
    && h'.queues == h.queues[m := q[n..] + [e]]
    && h'.sent == h.sent[e.id := Sent(m, e, |h.sent|)]
    && h'.fate == h.fate + map id | id in Ids(q[..n]) :: Evicted
  }

  lemma EnqueueQueues(h: History, h': History, m: string, e: Envelope, q: seq<Envelope>, n: nat)
    requires Conserved(h) && e.id !in h.sent && Enqueued(h, h', m, e, q, n)
    ensures forall o :: o in h'.queues ==> Tidy(h', o, h'.queues[o])
  {
    forall o | o in h'.queues ensures Tidy(h', o, h'.queues[o]) {
      if o == m { EnqueueTidy(h, h', m, e, q, n); } else { OtherTidy(h, h', o, m, h.queues[o], q, n); }
    }
  }

  lemma EnqueueAccounted(h: History, h': History, m: string, e: Envelope, q: seq<Envelope>, n: nat)
    requires Conserved(h) && e.id !in h.sent && Enqueued(h, h', m, e, q, n)
    ensures forall id :: id in h'.sent && id !in h'.fate ==> id in Ids(QueueOf(h'.queues, h'.sent[id].mailbox))
  {
    forall id | id in h'.sent && id !in h'.fate ensures id in Ids(QueueOf(h'.queues, h'.sent[id].mailbox)) {
      if id == e.id {
        NewIsQueued(q[n..], e);
      } else if h.sent[id].mailbox == m {
        StillQueued(q, e, n, id);
      }
    }
  }

  lemma NewIsQueued(q: seq<Envelope>, e: Envelope)
    ensures e.id in Ids(q + [e])
  {
    assert (q + [e])[|q|].id == e.id;
  }

  lemma EvictedWereWaiting(h: History, m: string, q: seq<Envelope>, n: nat)
    requires Tidy(h, m, q) && n <= |q|
    ensures forall id :: id in Ids(q[..n]) ==> id in h.sent && h.sent[id].mailbox == m && id !in h.fate
  {
    forall id | id in Ids(q[..n]) ensures id in h.sent && h.sent[id].mailbox == m && id !in h.fate {
      var i :| 0 <= i < |q[..n]| && q[..n][i].id == id;
      assert Waiting(h, m, q[i]);
    }
  }

  lemma OtherTidy(h: History, h': History, o: string, m: string, p: seq<Envelope>, q: seq<Envelope>, n: nat)
    requires Tidy(h, o, p) && Tidy(h, m, q) && o != m && n <= |q|
    requires forall id :: id in h.sent ==> id in h'.sent && h'.sent[id] == h.sent[id]
    requires forall id :: id in h'.fate ==> id in h.fate || id in Ids(q[..n])
    ensures Tidy(h', o, p)
  {
    EvictedWereWaiting(h, m, q, n);
    forall i | 0 <= i < |p| ensures Waiting(h', o, p[i]) { assert Waiting(h, o, p[i]); }
    forall i, j | 0 <= i < j < |p| ensures h'.sent[p[i].id].ticket < h'.sent[p[j].id].ticket {
      assert Waiting(h, o, p[i]) && Waiting(h, o, p[j]);
    }
  }

  lemma EnqueueTidy(h: History, h': History, m: string, e: Envelope, q: seq<Envelope>, n: nat)
    requires Tidy(h, m, q) && n <= |q| && e.id !in h.sent && h.fate.Keys <= h.sent.Keys
    requires forall id :: id in h.sent ==> h.sent[id].ticket < |h.sent|
    requires h'.sent == h.sent[e.id := Sent(m, e, |h.sent|)]
    requires forall id :: id in h'.fate <==> id in h.fate || id in Ids(q[..n])
    ensures Tidy(h', m, q[n..] + [e])
  {
    var p := q[n..] + [e];
    TidyDistinct(h, m, q);
    EvictedWereWaiting(h, m, q, n);
    forall i | 0 <= i < |p| ensures Waiting(h', m, p[i]) {
      if i < |p| - 1 {
        assert p[i] == q[n + i] && Waiting(h, m, q[n + i]);
        forall k | 0 <= k < n ensures q[..n][k].id != q[n + i].id {}
      }
    }
    forall i, j | 0 <= i < j < |p| ensures h'.sent[p[i].id].ticket < h'.sent[p[j].id].ticket {
      assert Waiting(h', m, p[i]) && Waiting(h', m, p[j]) && Waiting(h, m, q[n + i]);
      if j < |p| - 1 { assert h.sent[q[n + i].id].ticket < h.sent[q[n + j].id].ticket; }
    }
  }

  lemma EarlyIds(q: seq<Envelope>, n: nat)
    requires n <= |q|
    ensures forall i :: 0 <= i < n ==> q[i].id in Ids(q[..n])
  {
    forall i | 0 <= i < n ensures q[i].id in Ids(q[..n]) { assert q[..n][i].id == q[i].id; }
  }

  lemma StillQueued(q: seq<Envelope>, e: Envelope, n: nat, id: Uuid)
    requires n <= |q| && id in Ids(q) && id !in Ids(q[..n])
    ensures id in Ids(q[n..] + [e])
  {
    EarlyIds(q, n);
    var i :| 0 <= i < |q| && q[i].id == id;
    assert (q[n..] + [e])[i - n].id == id;
  }

  lemma {:induction false} RunConserves(h: History, ops: seq<Op>)
    requires Conserved(h) && LegalRun(h, ops)
    ensures Conserved(RecordAll(h, ops)) && FatesKept(h, RecordAll(h, ops))
  {
    if ops != [] {
      RunConserves(h, ops[..|ops| - 1]);
      RecordConserves(RecordAll(h, ops[..|ops| - 1]), ops[|ops| - 1]);
    }
  }

  const EMPTY_HISTORY: History := History(map[], map[], map[])

  /** From an empty store, in every run: an envelope once enqueued is in its mailbox's flush,
      unchanged, exactly as long as no ack, eviction, sweep or purge has taken it. */
  lemma FlushedUntilFate(ops: seq<Op>, id: Uuid)
    requires LegalRun(EMPTY_HISTORY, ops)
    ensures var h := RecordAll(EMPTY_HISTORY, ops);
            id in h.sent ==>
              (id !in h.fate <==> h.sent[id].envelope in QueueOf(h.queues, h.sent[id].mailbox))
  {
    RunConserves(EMPTY_HISTORY, ops);
    var h := RecordAll(EMPTY_HISTORY, ops);
    if id in h.sent {
      var m := h.sent[id].mailbox;
      var q := QueueOf(h.queues, m);
      assert forall i :: 0 <= i < |q| ==> Waiting(h, m, q[i]);
      if id !in h.fate {
        assert id in Ids(q);
        var i :| 0 <= i < |q| && q[i].id == id;
        assert q[i] == h.sent[id].envelope;
      }
      if h.sent[id].envelope in q {
        var i :| 0 <= i < |q| && q[i] == h.sent[id].envelope;
        SentUnderOwnId(ops, id);
      }
    }
  }

  lemma {:induction false} SentUnderOwnId(ops: seq<Op>, id: Uuid)
    requires LegalRun(EMPTY_HISTORY, ops) && id in RecordAll(EMPTY_HISTORY, ops).sent
    ensures RecordAll(EMPTY_HISTORY, ops).sent[id].envelope.id == id
  {
    if ops != [] {
      if id in RecordAll(EMPTY_HISTORY, ops[..|ops| - 1]).sent { SentUnderOwnId(ops[..|ops| - 1], id); }
    }
  }

  predicate Framed(op: Op) {
    op.Enqueue? || op.Send? ==> |op.envelope.ciphertext| <= MAX_FRAME_BYTES
  }

  /** In every run of frames the relay accepts, every mailbox stays within its caps. */
  lemma {:induction false} RunKeepsCaps(h: History, ops: seq<Op>)
    requires Capped(h.queues) && forall i :: 0 <= i < |ops| ==> Framed(ops[i])
    ensures Capped(RecordAll(h, ops).queues)
  {
    if ops != [] {
      var before, op := ops[..|ops| - 1], ops[|ops| - 1];
      RunKeepsCaps(h, before);
      var qs := RecordAll(h, before).queues;
      hide Capped, QueueSpec.Evicted, Filter;
      match Admitted(qs, op)
      case Enqueue(m, e) => EnqueueKeepsCaps(qs, m, e);
      case Ack(m, ids) => RemovalsKeepCaps(qs, m, IdSet(ids), 0);
      case Purge(m) => RemovalsKeepCaps(qs, m, {}, 0);
      case Sweep(now) => RemovalsKeepCaps(qs, "", {}, SatSub(now, QUEUE_TTL_MS));
      case _ =>
    }
  }

  /** No operation on one mailbox changes another; only the sweep reaches several. */
  lemma OthersUntouched(qs: Queues, op: Op, m: string)
    requires !op.Sweep? && (op.Reopen? || op.mailbox != m)
    ensures QueueOf(Apply(qs, op), m) == QueueOf(qs, m)
  {
  }

  /** No operation but an enqueue adds to the stored total. */
  lemma OthersShrink(qs: Queues, op: Op)
    requires !op.Send? && !op.Enqueue?
    ensures TotalBytes(Effect(qs, op)) <= TotalBytes(qs)
  {
    var qs' := Effect(qs, op);
    forall m | m in qs ensures BytesOf(qs'[m]) <= BytesOf(qs[m]) {
      match op
      case Ack(x, ids) => FilterMember(qs[m], NotAmong(IdSet(ids)));
      case Sweep(now) => FilterMember(qs[m], QueuedSince(SatSub(now, QUEUE_TTL_MS)));
      case _ =>
    }
    SumPointwise(qs', qs, BytesOf);
    hide Sum, BytesOf, Filter;
  }

  lemma EnqueueAdds(qs: Queues, m: string, e: Envelope)
    ensures TotalBytes(EnqueueSpec(qs, m, e)) <= TotalBytes(qs) + |e.ciphertext|
  {
    var q := QueueOf(qs, m);
    var n := QueueSpec.Evicted(q, |e.ciphertext|);
    BytesSplit(q, n);
    BytesAppend(q[n..], e);
    SumUpdate(qs, BytesOf, m, q[n..] + [e]);
    hide Sum, BytesOf, QueueSpec.Evicted;
  }

  /** In every run in which mail comes by guarded sends, the stored total stays within the disk cap, or
      within where it started. */
  lemma {:induction false} RunWithinDiskCap(h: History, ops: seq<Op>)
    requires forall i :: 0 <= i < |ops| ==> !ops[i].Enqueue?
    ensures TotalBytes(RecordAll(h, ops).queues) <= Max(TotalBytes(h.queues), 4 * 1024 * 1024 * 1024)
  {
    if ops != [] {
      var before, op := ops[..|ops| - 1], ops[|ops| - 1];
      RunWithinDiskCap(h, before);
      var qs := RecordAll(h, before).queues;
      var admitted := Admitted(qs, op);
      if admitted.Enqueue? {
        EnqueueAdds(qs, admitted.mailbox, admitted.envelope);
      } else {
        OthersShrink(qs, admitted);
      }
      hide TotalBytes, EnqueueSpec, AckSpec, PurgeSpec, SweepSpec;
    }
  }

  // ---------------------------------------------------------------- counting

  function QueueLength(q: seq<Envelope>): nat { |q| }

  function Present(qs: Queues): set<Uuid> { set m, d | m in qs && d in Ids(qs[m]) :: d }

  ghost predicate Disjoint(qs: Queues) {
    && (forall m, i, j :: m in qs && 0 <= i < j < |qs[m]| ==> qs[m][i].id != qs[m][j].id)
    && (forall m, o :: m in qs && o in qs && m != o ==> Ids(qs[m]) !! Ids(qs[o]))
  }

  lemma {:induction false} IdsCount(q: seq<Envelope>)
    requires forall i, j :: 0 <= i < j < |q| ==> q[i].id != q[j].id
    ensures |Ids(q)| == |q|
  {
    if q != [] {
      var n := |q| - 1;
      IdsCount(q[..n]);
      IdsSnoc(q, n);
    }
  }

  lemma IdsSnoc(q: seq<Envelope>, n: nat)
    requires |q| == n + 1 && forall i :: 0 <= i < n ==> q[i].id != q[n].id
    ensures Ids(q) == Ids(q[..n]) + {q[n].id} && q[n].id !in Ids(q[..n])
  {
    EarlyIds(q, n);
    forall id | id in Ids(q[..n]) ensures id in Ids(q) && id != q[n].id {
      var i :| 0 <= i < n && q[..n][i].id == id;
      assert q[i].id == id;
    }
  }

  lemma PresentSplit(qs: Queues, m: string)
    requires Disjoint(qs) && m in qs
    ensures Present(qs) == Ids(qs[m]) + Present(qs - {m}) && Ids(qs[m]) !! Present(qs - {m})
  {
    forall d ensures d in Present(qs) <==> d in Ids(qs[m]) || d in Present(qs - {m}) {
      if d in Present(qs) {
        var o :| o in qs && d in Ids(qs[o]);
        if o != m { assert (qs - {m})[o] == qs[o]; }
      }
      if d in Present(qs - {m}) {
        var o :| o in qs - {m} && d in Ids((qs - {m})[o]);
        assert d in Ids(qs[o]);
      }
    }
  }

  lemma {:induction false} PresentCount(qs: Queues)
    requires Disjoint(qs)
    ensures |Present(qs)| == Sum(qs, QueueLength)
    decreases |qs|
  {
    if qs == map[] {
      assert Present(qs) == {};
    } else {
      var m :| m in qs;
      var rest := qs - {m};
      SumRemove(qs, QueueLength, m);
      PresentCount(rest);
      IdsCount(qs[m]);
      PresentSplit(qs, m);
    }
  }

  function With(fate: map<Uuid, Fate>, f: Fate): set<Uuid> { set id | id in fate && fate[id] == f }

  lemma FatesCount(fate: map<Uuid, Fate>)
    ensures |fate| == |With(fate, Acked)| + |With(fate, Evicted)| + |With(fate, Expired)| + |With(fate, Purged)|
  {
    var a, b, c, d := With(fate, Acked), With(fate, Evicted), With(fate, Expired), With(fate, Purged);
    assert fate.Keys == a + b + c + d;
    assert |a + b| == |a| + |b|;
    assert |a + b + c| == |a + b| + |c|;
    assert |fate| == |fate.Keys|;
  }

  /** Conservation in every run: enqueued = present + acked + evicted + expired + purged. */
  lemma EnvelopesConserved(ops: seq<Op>)
    requires LegalRun(EMPTY_HISTORY, ops)
    ensures var h := RecordAll(EMPTY_HISTORY, ops);
            |h.sent| == Sum(h.queues, QueueLength) + |With(h.fate, Acked)| + |With(h.fate, Evicted)|
                        + |With(h.fate, Expired)| + |With(h.fate, Purged)|
  {
    RunConserves(EMPTY_HISTORY, ops);
    var h := RecordAll(EMPTY_HISTORY, ops);
    SentPartition(h);
    QueuesDisjoint(h);
    PresentCount(h.queues);
    FatesCount(h.fate);
    assert |h.sent| == |h.sent.Keys| && |h.fate| == |h.fate.Keys|;
  }

  lemma QueuedIsSent(h: History, m: string, d: Uuid)
    requires Conserved(h) && m in h.queues && d in Ids(h.queues[m])
    ensures d in h.sent && h.sent[d].mailbox == m && d !in h.fate
  {
    var i :| 0 <= i < |h.queues[m]| && h.queues[m][i].id == d;
    assert Waiting(h, m, h.queues[m][i]);
  }

  lemma QueuesDisjoint(h: History)
    requires Conserved(h)
    ensures Disjoint(h.queues)
  {
    forall m, d | m in h.queues && d in Ids(h.queues[m]) ensures d in h.sent && h.sent[d].mailbox == m {
      QueuedIsSent(h, m, d);
    }
    forall m, i, j | m in h.queues && 0 <= i < j < |h.queues[m]| ensures h.queues[m][i].id != h.queues[m][j].id {
      TidyDistinct(h, m, h.queues[m]);
    }
    hide Conserved, Ids;
  }

  lemma UnfatedIsQueued(h: History, d: Uuid)
    requires Conserved(h) && d in h.sent && d !in h.fate
    ensures d in Present(h.queues)
  {
    assert d in Ids(QueueOf(h.queues, h.sent[d].mailbox));
    hide Ids, Tidy;
  }

  lemma FatesWereSent(h: History)
    requires Conserved(h)
    ensures h.fate.Keys <= h.sent.Keys
  {
  }

  lemma SentPartition(h: History)
    requires Conserved(h)
    ensures h.sent.Keys == Present(h.queues) + h.fate.Keys && Present(h.queues) !! h.fate.Keys
  {
    hide Conserved, Ids;
    forall d | d in Present(h.queues) ensures d in h.sent && d !in h.fate {
      var m :| m in h.queues && d in Ids(h.queues[m]);
      QueuedIsSent(h, m, d);
    }
    forall d | d in h.sent && d !in h.fate ensures d in Present(h.queues) {
      UnfatedIsQueued(h, d);
    }
    FatesWereSent(h);
    hide Present;
  }

  // ---------------------------------------------------------------- the store follows the run

  /** What the flushes of a run return. */
  ghost function Flushed(h: History, ops: seq<Op>): seq<seq<Envelope>> {
    if ops == [] then [] else
      var before, op := ops[..|ops| - 1], ops[|ops| - 1];
      Flushed(h, before) + if op.Flush? then [QueueOf(RecordAll(h, before).queues, op.mailbox)] else []
  }

  lemma KeysWereSent(table: Table, h: History, m: string, id: Uuid)
    requires Represents(table, h.queues) && Conserved(h) && ColonFree(m)
    ensures KeyFor(m, id) in table ==> id in h.sent
  {
    if KeyFor(m, id) in table {
      assert Homed(h.queues, KeyFor(m, id));
      var o, i :| o in h.queues && 0 <= i < |h.queues[o]| && KeyFor(m, id) == KeyFor(o, h.queues[o][i].id);
      KeyForInjective(m, id, o, h.queues[o][i].id);
      assert Waiting(h, o, h.queues[o][i]);
    }
  }

  lemma LastOp(h: History, ops: seq<Op>)
    requires ops != []
    ensures var before, op := ops[..|ops| - 1], ops[|ops| - 1];
            && (LegalRun(h, ops) ==> LegalRun(h, before) && Legal(RecordAll(h, before), op))
            && RecordAll(h, ops).queues == Apply(RecordAll(h, before).queues, op)
            && Flushed(h, ops) == Flushed(h, before) +
                 if op.Flush? then [QueueOf(RecordAll(h, before).queues, op.mailbox)] else []
  {
    hide Effect, Leaving, Admitted, Legal;
  }

  /** One more operation of a run. */
  lemma RunSnoc(h: History, ops: seq<Op>, i: nat)
    requires LegalRun(h, ops) && i < |ops|
    ensures LegalRun(h, ops[..i]) && LegalRun(h, ops[..i + 1]) && Legal(RecordAll(h, ops[..i]), ops[i])
    ensures RecordAll(h, ops[..i + 1]).queues == Apply(RecordAll(h, ops[..i]).queues, ops[i])
    ensures Flushed(h, ops[..i + 1]) == Flushed(h, ops[..i]) +
              if ops[i].Flush? then [QueueOf(RecordAll(h, ops[..i]).queues, ops[i].mailbox)] else []
  {
    hide LegalRun, RecordAll, Flushed, Apply, Legal;
    LegalPrefix(h, ops, i + 1);
    assert ops[..i + 1][..i] == ops[..i];
    LastOp(h, ops[..i + 1]);
  }

  /** One call of the store does to the abstract queues what the operation says. */
  method Perform(store: QueueStore, op: Op, ghost h: History) returns (store': QueueStore, out: seq<seq<Envelope>>)
    requires store.Valid() && Conserved(h) && Legal(h, op) && store.queues == h.queues
    modifies store
    ensures store' == store || fresh(store')
    ensures store'.Valid() && store'.queues == Apply(h.queues, op)
    ensures out == if op.Flush? then [QueueOf(h.queues, op.mailbox)] else []
  {
    hide Conserved, Consistent, Represents, EnqueueSpec, AckSpec, PurgeSpec, SweepSpec;
    Interpreted(store.table, store.totalBytes, store.nextSeq, store.index, store.queues);
    TotalMatchesQueues(store.table, store.queues);
    store', out := store, [];
    match op {
      case Enqueue(m, e) =>
        KeysWereSent(store.table, h, m, e.id);
        var _ := store.Enqueue(m, e.id, e.envelopeType, e.ciphertext, e.queuedAt);
      case Send(m, e) =>
        KeysWereSent(store.table, h, m, e.id);
        var _ := store.QueueUnlessFull(m, e.id, e.envelopeType, e.ciphertext, e.queuedAt);
      case Flush(m) =>
        var envelopes := store.Flush(m);
        out := [envelopes];
      case Ack(m, ids) => var _ := store.Ack(m, ids);
      case Purge(m) => var _ := store.PurgeMailbox(m);
      case Sweep(now) => var _ := store.SweepExpired(now);
      case Reopen => store' := new QueueStore(store.table, store.queues);
    }
  }

  /** Any sequence of calls, with restarts anywhere in between, leaves the store representing the
      abstract queues of that run, and every flush returned the abstract queue. */
  method Drive(ops: seq<Op>) returns (store: QueueStore, out: seq<seq<Envelope>>)
    requires LegalRun(EMPTY_HISTORY, ops)
    ensures fresh(store) && store.Valid()
    ensures store.queues == RecordAll(EMPTY_HISTORY, ops).queues && store.totalBytes == TotalBytes(store.queues)
    ensures out == Flushed(EMPTY_HISTORY, ops)
  {
    store := new QueueStore(map[], map[]);
    out := [];
    assert ops[..0] == [];
    for i := 0 to |ops|
      invariant fresh(store) && store.Valid()
      invariant store.queues == RecordAll(EMPTY_HISTORY, ops[..i]).queues
      invariant out == Flushed(EMPTY_HISTORY, ops[..i])
    {
      RunSnoc(EMPTY_HISTORY, ops, i);
      RunConserves(EMPTY_HISTORY, ops[..i]);
      var flushed: seq<seq<Envelope>>;
      store, flushed := Perform(store, ops[i], RecordAll(EMPTY_HISTORY, ops[..i]));
      out := out + flushed;
    }
    assert ops[..|ops|] == ops;
    Interpreted(store.table, store.totalBytes, store.nextSeq, store.index, store.queues);
    TotalMatchesQueues(store.table, store.queues);
  }

  lemma {:induction false} LegalPrefix(h: History, ops: seq<Op>, n: nat)
    requires LegalRun(h, ops) && n <= |ops|
    ensures LegalRun(h, ops[..n])
    decreases |ops|
  {
    if n < |ops| {
      LegalPrefix(h, ops[..|ops| - 1], n);
      assert ops[..|ops| - 1][..n] == ops[..n];
    } else {
      assert ops[..n] == ops;
    }
  }
}
