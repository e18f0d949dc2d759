/** What the offline queues mean: one oldest-first sequence of envelopes per mailbox. */
module QueueSpec {
  import opened Tables
  import opened Keys

  const MAX_QUEUE_PER_RECIPIENT: nat := 500
  const MAX_FRAME_BYTES: nat := 512 * 1024
  const PER_MAILBOX_QUEUE_BYTES: nat := 8 * 1024 * 1024
  const GLOBAL_QUEUE_DISK_CAP_BYTES: nat := 4 * 1024 * 1024 * 1024
  const QUEUE_TTL_MS: nat := 14 * 24 * 60 * 60 * 1000

  datatype Envelope = Envelope(id: Uuid, envelopeType: string, ciphertext: Bytes, queuedAt: nat)

  type Queues = map<string, seq<Envelope>>

  function QueueOf(qs: Queues, m: string): seq<Envelope> {
    if m in qs then qs[m] else []
  }

  function BytesOf(q: seq<Envelope>): nat {
    if q == [] then 0 else |q[0].ciphertext| + BytesOf(q[1..])
  }

  /** Room for one more envelope of `len` bytes under both per-mailbox caps. */
  predicate Fits(q: seq<Envelope>, len: nat) {
    |q| + 1 <= MAX_QUEUE_PER_RECIPIENT && BytesOf(q) + len <= PER_MAILBOX_QUEUE_BYTES
  }

  /** The length of the shortest oldest-first prefix whose removal makes room. */
  function Evicted(q: seq<Envelope>, len: nat): (n: nat)
    ensures n <= |q|
    ensures n < |q| ==> Fits(q[n..], len)
    ensures forall k :: 0 <= k < n ==> !Fits(q[k..], len)
  {
    if q == [] || Fits(q, len) then
      assert q[0..] == q;
      0
    else
      var n := Evicted(q[1..], len);
      assert forall k :: 1 <= k <= |q| ==> q[k..] == q[1..][k - 1..];
      assert q[0..] == q;
      n + 1
  }

  function Filter(q: seq<Envelope>, keep: Envelope -> bool): seq<Envelope> {
    if q == [] then [] else (if keep(q[0]) then [q[0]] else []) + Filter(q[1..], keep)
  }

  function IdSet(ids: seq<Uuid>): set<Uuid> { set id | id in ids }

  function NotAmong(ids: set<Uuid>): Envelope -> bool { (e: Envelope) => e.id !in ids }

  function QueuedSince(cutoff: nat): Envelope -> bool { (e: Envelope) => e.queuedAt >= cutoff }

  // ---------------------------------------------------------------- the operations

  function EnqueueSpec(qs: Queues, m: string, e: Envelope): Queues {
    var q := QueueOf(qs, m);
    qs[m := q[Evicted(q, |e.ciphertext|)..] + [e]]
  }

  function AckSpec(qs: Queues, m: string, ids: set<Uuid>): Queues {
    if m in qs then qs[m := Filter(qs[m], NotAmong(ids))] else qs
  }

  function PurgeSpec(qs: Queues, m: string): Queues {
    if m in qs then qs[m := []] else qs
  }

  function SweepSpec(qs: Queues, cutoff: nat): Queues {
    map m | m in qs :: Filter(qs[m], QueuedSince(cutoff))
  }

  // ---------------------------------------------------------------- filtering

  lemma {:induction false} FilterMember(q: seq<Envelope>, keep: Envelope -> bool)
    ensures forall e :: e in Filter(q, keep) <==> e in q && keep(e)
    ensures |Filter(q, keep)| <= |q| && BytesOf(Filter(q, keep)) <= BytesOf(q)
  {
    if q != [] {
      FilterMember(q[1..], keep);
      assert q == [q[0]] + q[1..];
      if keep(q[0]) { assert Filter(q, keep)[1..] == Filter(q[1..], keep); }
      else { assert Filter(q, keep) == Filter(q[1..], keep); }
    }
  }

  lemma {:induction false} FilterAgree(q: seq<Envelope>, keep: Envelope -> bool, keep': Envelope -> bool)
    requires forall e :: e in q ==> keep(e) == keep'(e)
    ensures Filter(q, keep) == Filter(q, keep')
  {
    if q != [] {
      assert forall e :: e in q[1..] ==> e in q;
      FilterAgree(q[1..], keep, keep');
    }
  }

  /** Dropping exactly a prefix. */
  lemma {:induction false} FilterSuffix(q: seq<Envelope>, keep: Envelope -> bool, n: nat)
    requires n <= |q|
    requires forall i :: 0 <= i < |q| ==> (keep(q[i]) <==> n <= i)
    ensures Filter(q, keep) == q[n..]
  {
    if q != [] {
      FilterSuffix(q[1..], keep, if n == 0 then 0 else n - 1);
      if n == 0 { assert q == [q[0]] + q[1..]; }
    }
  }

  lemma {:induction false} BytesSplit(q: seq<Envelope>, n: nat)
    requires n <= |q|
    ensures BytesOf(q) == BytesOf(q[..n]) + BytesOf(q[n..])
  {
    if n == 0 {
      assert q[0..] == q;
    } else {
      BytesSplit(q[1..], n - 1);
      assert q[..n][1..] == q[1..][..n - 1] && q[1..][n - 1..] == q[n..];
    }
  }

  // ---------------------------------------------------------------- caps

  ghost predicate Capped(qs: Queues) {
    forall m :: m in qs ==> |qs[m]| <= MAX_QUEUE_PER_RECIPIENT && BytesOf(qs[m]) <= PER_MAILBOX_QUEUE_BYTES
  }

  lemma BytesAppend(q: seq<Envelope>, e: Envelope)
    ensures BytesOf(q + [e]) == BytesOf(q) + |e.ciphertext|
  {
    BytesSplit(q + [e], |q|);
    assert (q + [e])[..|q|] == q && (q + [e])[|q|..] == [e];
    assert BytesOf([e]) == |e.ciphertext|;
  }

  /** The new envelope is always kept, and every mailbox stays within 500 envelopes and 8 MiB as
      long as one envelope alone fits the byte cap, which the frame cap guarantees. */
  lemma EnqueueKeepsCaps(qs: Queues, m: string, e: Envelope)
    requires Capped(qs) && |e.ciphertext| <= MAX_FRAME_BYTES
    ensures Capped(EnqueueSpec(qs, m, e))
    ensures e in QueueOf(EnqueueSpec(qs, m, e), m)
  {
    var q := QueueOf(qs, m);
    var n := Evicted(q, |e.ciphertext|);
    BytesAppend(q[n..], e);
    assert e == EnqueueSpec(qs, m, e)[m][|q[n..]|];
    if n == |q| { assert q[n..] == []; }
  }

  /** An enqueue evicts for room and for nothing else: with fewer than 500 envelopes waiting and 8 MiB not
      passed it evicts nobody, and otherwise the fewest of the oldest, any fewer of which would leave more
      than 500 envelopes or more than 8 MiB. */
  lemma EvictsOnlyForRoom(qs: Queues, m: string, e: Envelope) returns (n: nat)
    ensures var q := QueueOf(qs, m);
            && n <= |q| && QueueOf(EnqueueSpec(qs, m, e), m) == q[n..] + [e]
            && (n == 0 <==> q == [] || (|q| + 1 <= 500 && BytesOf(q) + |e.ciphertext| <= 8 * 1024 * 1024))
            && (forall k :: 0 <= k < n ==> |q[k..] + [e]| > 500 || BytesOf(q[k..] + [e]) > 8 * 1024 * 1024)
            && (n < |q| ==> |q[n..] + [e]| <= 500 && BytesOf(q[n..] + [e]) <= 8 * 1024 * 1024)
  {
    var q := QueueOf(qs, m);
    n := Evicted(q, |e.ciphertext|);
    assert q[0..] == q;
    forall k | 0 <= k <= |q| ensures BytesOf(q[k..] + [e]) == BytesOf(q[k..]) + |e.ciphertext| {
      BytesAppend(q[k..], e);
    }
    assert forall k :: 0 <= k < n ==> !Fits(q[k..], |e.ciphertext|);
  }

  /** Who is left by an acknowledgement, a purge and the sweep at `now`: an envelope lives 14 days. */
  lemma LeftBehind(qs: Queues, m: string, ids: seq<Uuid>, now: nat, e: Envelope)
    ensures e in QueueOf(AckSpec(qs, m, IdSet(ids)), m) <==> e in QueueOf(qs, m) && e.id !in ids
    ensures QueueOf(PurgeSpec(qs, m), m) == []
    ensures e in QueueOf(SweepSpec(qs, SatSub(now, QUEUE_TTL_MS)), m) <==>
            e in QueueOf(qs, m) && now <= e.queuedAt + 14 * 24 * 60 * 60 * 1000
  {
    FilterMember(QueueOf(qs, m), NotAmong(IdSet(ids)));
    FilterMember(QueueOf(qs, m), QueuedSince(SatSub(now, QUEUE_TTL_MS)));
  }

  lemma RemovalsKeepCaps(qs: Queues, m: string, ids: set<Uuid>, cutoff: nat)
    requires Capped(qs)
    ensures Capped(AckSpec(qs, m, ids)) && Capped(PurgeSpec(qs, m)) && Capped(SweepSpec(qs, cutoff))
  {
    forall k | k in qs
      ensures |Filter(qs[k], NotAmong(ids))| <= |qs[k]| && BytesOf(Filter(qs[k], NotAmong(ids))) <= BytesOf(qs[k])
      ensures |Filter(qs[k], QueuedSince(cutoff))| <= |qs[k]|
      ensures BytesOf(Filter(qs[k], QueuedSince(cutoff))) <= BytesOf(qs[k])
    {
      FilterMember(qs[k], NotAmong(ids));
      FilterMember(qs[k], QueuedSince(cutoff));
    }
  }

  predicate OrderedByTime(q: seq<Envelope>) {
    forall i, j :: 0 <= i < j < |q| ==> q[i].queuedAt <= q[j].queuedAt
  }

  /** With a clock that never runs backwards, the TTL sweep removes a prefix of each queue too. */
  lemma {:induction false} SweepRemovesPrefix(q: seq<Envelope>, cutoff: nat) returns (n: nat)
    requires OrderedByTime(q)
    ensures n <= |q| && Filter(q, QueuedSince(cutoff)) == q[n..]
    ensures forall i :: 0 <= i < |q| ==> (i < n <==> q[i].queuedAt < cutoff)
  {
    n := 0;
    while n < |q| && q[n].queuedAt < cutoff
      invariant n <= |q|
      invariant forall i :: 0 <= i < n ==> q[i].queuedAt < cutoff
    {
      n := n + 1;
    }
    FilterSuffix(q, QueuedSince(cutoff), n);
  }
}
