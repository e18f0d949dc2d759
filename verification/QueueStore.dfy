/** The durable queue store: the `envelopes` table and the in-memory totals kept beside it.
    Every method is one call run to completion; the table changes in one assignment, the commit. */
module QueueStore {
  import opened Tables
  import opened Keys
  import opened QueueSpec
  import opened QueueTable

  /** A mailbox's `(count, bytes)` index entry. */
  datatype Usage = Usage(count: nat, bytes: nat)

  type Index = map<string, Usage>

  /** An absent index entry means an empty mailbox. */
  function Entry(index: Index, m: string): Usage {
    if m in index then index[m] else Usage(0, 0)
  }

  /** Every `(count, bytes)` entry is what a scan of that mailbox's rows would find. */
  ghost predicate IndexExact(table: Table, index: Index) {
    forall m :: ColonFree(m) ==> Entry(index, m) == Usage(|Part(table, m)|, Sum(Part(table, m), Weight))
  }

  /** `after` is `before` without `count` rows of mailbox `m`, weighing `bytes`. */
  ghost predicate Freed(before: Table, after: Table, m: string, count: nat, bytes: nat) {
    && |Part(after, m)| + count == |Part(before, m)|
    && Sum(Part(after, m), Weight) + bytes == Sum(Part(before, m), Weight)
    && Sum(after, Weight) + bytes == Sum(before, Weight)
    && (forall o :: ColonFree(o) && o != m ==> Part(after, o) == Part(before, o))
  }

  lemma FreedNone(table: Table, m: string)
    ensures Freed(table, table, m, 0, 0)
  {
  }

  lemma FreedStep(before: Table, after: Table, m: string, count: nat, bytes: nat, k: string, id: Uuid)
    requires ColonFree(m) && Freed(before, after, m, count, bytes) && k == KeyFor(m, id) && k in after
    ensures Freed(before, after - {k}, m, count + 1, bytes + |after[k].c|)
  {
    SumRemove(after, Weight, k);
    PartSelects(after, m, m, id);
    SumRemove(Part(after, m), Weight, k);
    PartRemove(after, m, id, m);
    forall o | ColonFree(o) && o != m ensures Part(after - {k}, o) == Part(before, o) {
      PartRemove(after, m, id, o);
    }
  }

  /** The saturating index and total updates after a removal are exact: nothing saturates. */
  lemma SettleIndex(before: Table, after: Table, index: Index, m: string, count: nat, bytes: nat)
    requires IndexExact(before, index) && ColonFree(m) && Freed(before, after, m, count, bytes)
    ensures count <= Entry(index, m).count && bytes <= Entry(index, m).bytes && bytes <= Sum(before, Weight)
    ensures IndexExact(after, index[m := Usage(Entry(index, m).count - count, Entry(index, m).bytes - bytes)])
  {
    hide Part, Sum, ColonFree;
    assert Entry(index, m) == Usage(|Part(before, m)|, Sum(Part(before, m), Weight));
    var index' := index[m := Usage(Entry(index, m).count - count, Entry(index, m).bytes - bytes)];
    forall o | ColonFree(o)
      ensures Entry(index', o) == Usage(|Part(after, o)|, Sum(Part(after, o), Weight))
    {
      assert Entry(index, o) == Usage(|Part(before, o)|, Sum(Part(before, o), Weight));
    }
  }

  /** A mailbox without an index entry has nothing to free, so leaving the index alone is exact. */
  lemma SettleAbsent(before: Table, after: Table, index: Index, m: string, count: nat, bytes: nat)
    requires IndexExact(before, index) && ColonFree(m) && Freed(before, after, m, count, bytes)
    requires m !in index
    ensures count == bytes == 0 && IndexExact(after, index)
  {
    assert Entry(index, m) == Usage(|Part(before, m)|, Sum(Part(before, m), Weight));
    forall o | ColonFree(o) ensures Entry(index, o) == Usage(|Part(after, o)|, Sum(Part(after, o), Weight)) {
      assert Entry(index, o) == Usage(|Part(before, o)|, Sum(Part(before, o), Weight));
    }
  }

  /** Count and weight of a mailbox's rows after one insertion. */
  lemma PartGrows(table: Table, m: string, id: Uuid, v: StoredValue, o: string)
    requires ColonFree(m) && ColonFree(o) && KeyFor(m, id) !in table
    ensures var t' := table[KeyFor(m, id) := v];
            && |Part(t', o)| == |Part(table, o)| + (if o == m then 1 else 0)
            && Sum(Part(t', o), Weight) == Sum(Part(table, o), Weight) + (if o == m then |v.c| else 0)
  {
    PartInsert(table, m, id, v, o);
    if o == m { SumUpdate(Part(table, m), Weight, KeyFor(m, id), v); }
  }

  /** Count and weight of a mailbox's rows after one deletion. */
  lemma PartShrinks(table: Table, m: string, id: Uuid, o: string)
    requires ColonFree(m) && ColonFree(o) && KeyFor(m, id) in table
    ensures var k := KeyFor(m, id);
            && |Part(table - {k}, o)| + (if o == m then 1 else 0) == |Part(table, o)|
            && Sum(Part(table - {k}, o), Weight) + (if o == m then |table[k].c| else 0) == Sum(Part(table, o), Weight)
  {
    PartRemove(table, m, id, o);
    if o == m {
      PartSelects(table, m, m, id);
      SumRemove(Part(table, m), Weight, KeyFor(m, id));
    }
  }

  function Bump(index: Index, m: string, bytes: nat): Index {
    index[m := Usage(Entry(index, m).count + 1, Entry(index, m).bytes + bytes)]
  }

  lemma IndexInsert(table: Table, index: Index, m: string, id: Uuid, v: StoredValue)
    requires IndexExact(table, index) && ColonFree(m) && KeyFor(m, id) !in table
    ensures IndexExact(table[KeyFor(m, id) := v], Bump(index, m, |v.c|))
  {

    forall o | ColonFree(o)
      ensures Entry(Bump(index, m, |v.c|), o)
              == Usage(|Part(table[KeyFor(m, id) := v], o)|, Sum(Part(table[KeyFor(m, id) := v], o), Weight))
    {
      PartGrows(table, m, id, v, o);
    }
  }

  /** A table key names the mailbox and the envelope it was built from. */
  lemma KeyParts(table: Table, qs: Queues, k: string) returns (m: string, id: Uuid)
    requires Represents(table, qs) && k in table
    ensures ColonFree(m) && k == KeyFor(m, id) && ParseMailbox(k) == Some(m) && ParseId(k) == Some(id)
  {
    assert Homed(qs, k);
    var n, i :| n in qs && 0 <= i < |qs[n]| && k == KeyFor(n, qs[n][i].id);
    KeyForParses(n, qs[n][i].id);
    m, id := n, qs[n][i].id;
  }

  lemma EmptyExact()
    ensures IndexExact(map[], map[]) && Sum<string, StoredValue>(map[], Weight) == 0
  {
    assert forall m :: Part(map[], m) == map[];
  }

  /** The full scan on open, in whatever order the table yields its rows. */
  method ScanTotals(db: Table, ghost qs: Queues) returns (total: nat, maxSeq: nat, index: Index)
    requires Represents(db, qs)
    ensures total == Sum(db, Weight) && IndexExact(db, index)
    ensures forall k :: k in db ==> db[k].s <= maxSeq
  {

    hide Sum, KeyFor;
    total, maxSeq, index := 0, 0, map[];
    var pending := db.Keys;
    ghost var seen: Table := map[];
    EmptyExact();
    while pending != {}
      invariant pending <= db.Keys && seen == db - pending
      invariant total == Sum(seen, Weight) && IndexExact(seen, index)
      invariant forall k :: k in seen ==> seen[k].s <= maxSeq
    {
      var k :| k in pending;
      var val := db[k];
      ghost var m0, id0 := KeyParts(db, qs, k);
      total := total + |val.c|;
      if maxSeq < val.s { maxSeq := val.s; }
      match ParseMailbox(k) {
        case None =>
        case Some(m) =>
          IndexInsert(seen, index, m, id0, val);
          index := Bump(index, m, |val.c|);
      }
      SumUpdate(seen, Weight, k, val);
      SeeOne(db, pending, k);
      seen, pending := seen[k := val], pending - {k};
    }
    assert seen == db;
  }

  lemma NothingFreed(before: Table, after: Table, m: string, bytes: nat)
    requires ColonFree(m) && Freed(before, after, m, 0, bytes)
    requires forall k :: k in after ==> k in before && after[k] == before[k]
    ensures bytes == 0
  {
    var p, p' := Part(before, m), Part(after, m);
    assert p'.Keys <= p.Keys;
    assert |p'.Keys| == |p'| == |p| == |p.Keys|;
    SameSize(p'.Keys, p.Keys);
    assert p' == p;
  }

  lemma SameSize(a: set<string>, b: set<string>)
    requires a <= b && |a| == |b|
    ensures a == b
  {
    assert b == a + (b - a);
    assert |b - a| == 0;
  }

  // ---------------------------------------------------------------- removal loops

  lemma KeysOfSnoc(m: string, ids: seq<Uuid>, i: nat)
    requires i < |ids|
    ensures KeysOf(m, ids[..i + 1]) == KeysOf(m, ids[..i]) + {KeyFor(m, ids[i])}
  {
    assert ids[..i + 1] == ids[..i] + [ids[i]];
  }

  /** Delete rows by id, counting and weighing those that were there. */
  method RemoveRows(table: Table, mailbox: string, ids: seq<Uuid>) returns (t: Table, removed: nat, freed: nat)
    requires ColonFree(mailbox)
    ensures t == table - KeysOf(mailbox, ids)
    ensures Freed(table, t, mailbox, removed, freed)
  {
    hide Freed, KeyFor;
    t, removed, freed := table, 0, 0;
    FreedNone(table, mailbox);
    for i := 0 to |ids|
      invariant t == table - KeysOf(mailbox, ids[..i])
      invariant Freed(table, t, mailbox, removed, freed)
    {
      var k := KeyFor(mailbox, ids[i]);
      KeysOfSnoc(mailbox, ids, i);
      DropOne(table, KeysOf(mailbox, ids[..i]), k);
      if k in t {
        FreedStep(table, t, mailbox, removed, freed, k, ids[i]);
        removed, freed := removed + 1, freed + |t[k].c|;
      } else {
        assert t - {k} == t;
      }
      t := t - {k};
    }
    assert ids[..|ids|] == ids;
  }

  ghost predicate IsKeyOf(m: string, k: string) {
    exists id: Uuid :: k == KeyFor(m, id)
  }

  /** Delete a set of one mailbox's rows, in any order. */
  method RemoveKeySet(table: Table, mailbox: string, keys: set<string>) returns (t: Table, freed: nat)
    requires ColonFree(mailbox) && keys <= table.Keys && forall k :: k in keys ==> IsKeyOf(mailbox, k)
    ensures t == table - keys
    ensures Freed(table, t, mailbox, |keys|, freed)
  {
    hide Freed, KeyFor;
    var pending, removed := keys, 0;
    t, freed := table, 0;
    FreedNone(table, mailbox);
    while pending != {}
      invariant pending <= keys && t == table - (keys - pending) && removed == |keys - pending|
      invariant Freed(table, t, mailbox, removed, freed)
    {
      var k :| k in pending;
      assert IsKeyOf(mailbox, k);
      ghost var id: Uuid :| k == KeyFor(mailbox, id);
      FreedStep(table, t, mailbox, removed, freed, k, id);
      SetMinusOne(keys, pending, k);
      DropOne(table, keys - pending, k);
      freed := freed + |t[k].c|;
      t, pending, removed := t - {k}, pending - {k}, removed + 1;
    }
    assert keys - {} == keys;
  }

  /** Delete a mailbox's whole key range. */
  method RemoveRange(table: Table, mailbox: string, ghost qs: Queues) returns (t: Table, removed: nat, freed: nat)
    requires Represents(table, qs) && ColonFree(mailbox)
    ensures t == table - Part(table, mailbox).Keys && removed == |Part(table, mailbox)|
    ensures Freed(table, t, mailbox, removed, freed)
  {
    var keys := set k | k in table && InRange(k, RangeLow(mailbox), RangeHigh(mailbox));
    assert keys == Part(table, mailbox).Keys;
    forall k | k in keys ensures IsKeyOf(mailbox, k) {
      var i := PartIsQueue(table, qs, mailbox, k);
    }
    t, freed := RemoveKeySet(table, mailbox, keys);
    removed := |keys|;
    assert |keys| == |Part(table, mailbox)|;
  }

  ghost predicate TalliedFor(before: Table, after: Table, per: Index, m: string) {
    && |Part(after, m)| + Entry(per, m).count == |Part(before, m)|
    && Sum(Part(after, m), Weight) + Entry(per, m).bytes == Sum(Part(before, m), Weight)
  }

  /** `per` records, mailbox by mailbox, what `after` lacks against `before`. */
  ghost predicate Tallied(before: Table, after: Table, per: Index) {
    forall m :: ColonFree(m) ==> TalliedFor(before, after, per, m)
  }

  lemma TallyStep(before: Table, after: Table, per: Index, m: string, id: Uuid)
    requires Tallied(before, after, per) && ColonFree(m) && KeyFor(m, id) in after
    ensures Tallied(before, after - {KeyFor(m, id)}, Bump(per, m, |after[KeyFor(m, id)].c|))
  {
    forall o | ColonFree(o)
      ensures TalliedFor(before, after - {KeyFor(m, id)}, Bump(per, m, |after[KeyFor(m, id)].c|), o)
    {
      PartShrinks(after, m, id, o);
      assert TalliedFor(before, after, per, o);
    }
  }

  lemma StaleStep(table: Table, cutoff: nat, pending: set<string>, k: string)
    requires pending <= table.Keys && k in pending
    ensures Stale(table, cutoff) - (pending - {k}) ==
            Stale(table, cutoff) - pending + (if table[k].q < cutoff then {k} else {})
  {
  }

  lemma NothingStale(table: Table, cutoff: nat)
    ensures Stale(table, cutoff) - table.Keys == {} && Stale(table, cutoff) - {} == Stale(table, cutoff)
    ensures Tallied(table, table, map[])
  {
  }

  /** The sweep's scan: which rows are too old, what they weigh in all and per mailbox. */
  method FindStale(table: Table, cutoff: nat, ghost qs: Queues) returns (keys: set<string>, freed: nat, per: Index)
    requires Represents(table, qs)
    ensures keys == Stale(table, cutoff)
    ensures Sum(table - keys, Weight) + freed == Sum(table, Weight)
    ensures Tallied(table, table - keys, per)
  {
    hide Sum, KeyFor, Stale, Tallied, ColonFree, ParseMailbox, Represents;
    keys, freed, per := {}, 0, map[];
    var pending := table.Keys;
    MinusNothing(table);
    NothingStale(table, cutoff);
    while pending != {}
      invariant pending <= table.Keys && keys == Stale(table, cutoff) - pending
      invariant Sum(table - keys, Weight) + freed == Sum(table, Weight)
      invariant Tallied(table, table - keys, per)
    {
      var k :| k in pending;
      var val := table[k];
      StaleStep(table, cutoff, pending, k);
      if val.q < cutoff {
        ghost var m0, id0 := KeyParts(table, qs, k);
        DropOne(table, keys, k);
        SumRemove(table - keys, Weight, k);
        freed := freed + |val.c|;
        match ParseMailbox(k) {
          case None =>
          case Some(m) =>
            TallyStep(table, table - keys, per, m, id0);
            per := Bump(per, m, |val.c|);
        }
        keys := keys + {k};
      }
      pending := pending - {k};
    }
  }

  /** An index entry while the sweep's per-mailbox tallies in `todo` are still to be applied. */
  function Settled(index: Index, per: Index, todo: set<string>, m: string): Usage {
    if m in per && m !in todo
    then Usage(SatSub(Entry(index, m).count, per[m].count), SatSub(Entry(index, m).bytes, per[m].bytes))
    else Entry(index, m)
  }

  /** The sweep's second loop: subtract each mailbox's tally from its index entry. */
  method ApplyTallies(index0: Index, per: Index) returns (index: Index)
    ensures forall m :: Entry(index, m) == Settled(index0, per, {}, m)
  {
    index := index0;
    var todo := per.Keys;
    while todo != {}
      invariant todo <= per.Keys
      invariant forall m :: Entry(index, m) == Settled(index0, per, todo, m)
    {
      var m :| m in todo;
      var Usage(count, bytes) := per[m];
      ghost var before := index;
      if m in index {
        index := index[m := Usage(SatSub(index[m].count, count), SatSub(index[m].bytes, bytes))];
      }
      forall o ensures Entry(index, o) == Settled(index0, per, todo - {m}, o) {
        assert Entry(before, o) == Settled(index0, per, todo, o);
      }
      todo := todo - {m};
    }
  }

  // ---------------------------------------------------------------- reading a mailbox

  /** The rows of a mailbox, sorted by sequence number. */
  method ReadMailbox(table: Table, mailbox: string, ghost qs: Queues) returns (rows: seq<Row>)
    requires Represents(table, qs) && ColonFree(mailbox)
    ensures Envelopes(rows) == QueueOf(qs, mailbox)
  {
    var pending := set k | k in table && InRange(k, RangeLow(mailbox), RangeHigh(mailbox));
    var out: seq<Row> := [];
    ghost var selected := pending;
    while pending != {}
      invariant pending <= selected
      invariant ScannedRows(table, mailbox, selected - pending, out)
    {
      var k :| k in pending;
      ghost var i := PartIsQueue(table, qs, mailbox, k);
      KeyForParses(mailbox, qs[mailbox][i].id);
      SetMinusOne(selected, pending, k);
      match ParseId(k) {
        case None =>
        case Some(id) =>
          ScanRow(table, mailbox, selected - pending, out, id);
          out := out + [Row(id, table[k])];
      }
      pending := pending - {k};
    }
    assert selected - {} == selected;
    forall r: Row | KeyFor(mailbox, r.id) in table ensures KeyFor(mailbox, r.id) in selected {
      PartSelects(table, mailbox, mailbox, r.id);
    }
    rows := SortBySeq(out);
    SortedRowsAreQueue(table, qs, mailbox, out);
  }

  ghost predicate ScannedRows(table: Table, m: string, keys: set<string>, rows: seq<Row>) {
    && (forall r :: r in rows <==>
          KeyFor(m, r.id) in keys && KeyFor(m, r.id) in table && table[KeyFor(m, r.id)] == r.value)
    && (forall i, j :: 0 <= i < j < |rows| ==> rows[i].id != rows[j].id)
  }

  lemma ScanRow(table: Table, m: string, keys: set<string>, rows: seq<Row>, id: Uuid)
    requires ScannedRows(table, m, keys, rows) && ColonFree(m) && KeyFor(m, id) in table && KeyFor(m, id) !in keys
    ensures ScannedRows(table, m, keys + {KeyFor(m, id)}, rows + [Row(id, table[KeyFor(m, id)])])
  {
    var k := KeyFor(m, id);
    var rows' := rows + [Row(id, table[k])];
    forall r
      ensures r in rows' <==>
              KeyFor(m, r.id) in keys + {k} && KeyFor(m, r.id) in table && table[KeyFor(m, r.id)] == r.value
    {
      KeyForInjective(m, r.id, m, id);
    }
    forall i | 0 <= i < |rows| ensures rows[i].id != id { assert rows[i] in rows; }
  }

  lemma SuffixStep(q: seq<Envelope>, i: nat)
    requires i < |q|
    ensures BytesOf(q[..i + 1]) == BytesOf(q[..i]) + |q[i].ciphertext|
    ensures BytesOf(q[i..]) == |q[i].ciphertext| + BytesOf(q[i + 1..])
  {
    BytesAppend(q[..i], q[i]);
    assert q[..i] + [q[i]] == q[..i + 1];
    assert q[i..][1..] == q[i + 1..];
  }

  lemma NoBytes(q: seq<Envelope>)
    ensures q[0..] == q && BytesOf(q[..0]) == 0
  {
  }

  /** The oldest envelopes that have to go, found by reading the whole mailbox. */
  method ChooseEvictions(table: Table, mailbox: string, incomingLen: nat, ghost qs: Queues)
    returns (ids: seq<Uuid>, bytes: nat)
    requires Represents(table, qs) && ColonFree(mailbox)
    ensures var q := QueueOf(qs, mailbox);
            && |ids| == Evicted(q, incomingLen)
            && (forall i :: 0 <= i < |ids| ==> ids[i] == q[i].id)
            && bytes == BytesOf(q[..|ids|])
  {
    var existing := ReadMailbox(table, mailbox, qs);
    ids, bytes := PickOldest(existing, incomingLen, QueueOf(qs, mailbox));
  }

  /** The mailbox is read only when its index entry says that a cap is in the way. */
  method EvictionsFor(table: Table, mailbox: string, curCount: nat, curBytes: nat, incomingLen: nat, ghost qs: Queues)
    returns (ids: seq<Uuid>, bytes: nat)
    requires Represents(table, qs) && ColonFree(mailbox)
    requires curCount == |QueueOf(qs, mailbox)| && curBytes == BytesOf(QueueOf(qs, mailbox))
    ensures var q := QueueOf(qs, mailbox);
            && |ids| == Evicted(q, incomingLen)
            && (forall i :: 0 <= i < |ids| ==> ids[i] == q[i].id)
            && bytes == BytesOf(q[..|ids|])
  {
    hide Represents, ColonFree, Evicted, BytesOf;
    if curCount + 1 > MAX_QUEUE_PER_RECIPIENT || curBytes + incomingLen > PER_MAILBOX_QUEUE_BYTES {
      ids, bytes := ChooseEvictions(table, mailbox, incomingLen, qs);
    } else {
      ids, bytes := [], 0;
      NothingEvicted(QueueOf(qs, mailbox), incomingLen);
    }
  }

  method PickOldest(existing: seq<Row>, incomingLen: nat, ghost q: seq<Envelope>) returns (ids: seq<Uuid>, bytes: nat)
    requires Envelopes(existing) == q
    ensures |ids| == Evicted(q, incomingLen)
    ensures forall i :: 0 <= i < |ids| ==> ids[i] == q[i].id
    ensures bytes == BytesOf(q[..|ids|])
  {
    hide Evicted, BytesOf, Envelopes, TotalLength;
    NoBytes(q);
    var b := TotalLength(existing);
    var c := |existing|;
    var idx := 0;
    ids, bytes := [], 0;
    while (c + 1 > MAX_QUEUE_PER_RECIPIENT || b + incomingLen > PER_MAILBOX_QUEUE_BYTES) && idx < |existing|
      invariant idx <= |q| && c == |q| - idx && b == BytesOf(q[idx..])
      invariant |ids| == idx && bytes == BytesOf(q[..idx])
      invariant forall i :: 0 <= i < idx ==> ids[i] == q[i].id
      invariant forall i :: 0 <= i < idx ==> !Fits(q[i..], incomingLen)
    {
      var row := existing[idx];
      SuffixStep(q, idx);
      ids := ids + [row.id];
      bytes := bytes + |row.value.c|;
      c, b := c - 1, b - |row.value.c|;
      idx := idx + 1;
    }
  }

  // ---------------------------------------------------------------- the invariant

  /** The table represents the queues, the totals are its exact sums, and the sequence counter is
      past every stored number. */
  ghost predicate Consistent(table: Table, total: nat, nextSeq: nat, index: Index, qs: Queues) {
    && Represents(table, qs)
    && total == Sum(table, Weight)
    && IndexExact(table, index)
    && (forall k :: k in table ==> table[k].s < nextSeq)
  }

  lemma Interpreted(table: Table, total: nat, nextSeq: nat, index: Index, qs: Queues)
    requires Consistent(table, total, nextSeq, index, qs)
    ensures Represents(table, qs) && total == Sum(table, Weight)
  {
  }

  /** The index entry is what reading the whole mailbox would find. */
  lemma IndexTells(table: Table, total: nat, nextSeq: nat, index: Index, qs: Queues, m: string)
    requires Consistent(table, total, nextSeq, index, qs) && ColonFree(m)
    ensures Entry(index, m) == Usage(|QueueOf(qs, m)|, BytesOf(QueueOf(qs, m)))
  {
    PartMatchesQueue(table, qs, m);
  }

  /** The queues without the oldest `n` envelopes of one mailbox. */
  function Kept(qs: Queues, m: string, n: nat): Queues
    requires n <= |QueueOf(qs, m)|
  {
    if m in qs then qs[m := qs[m][n..]] else qs
  }

  /** The index after `count` envelopes weighing `bytes` have left a mailbox. */
  function Lowered(index: Index, m: string, count: nat, bytes: nat): Index {
    index[m := Usage(SatSub(Entry(index, m).count, count), SatSub(Entry(index, m).bytes, bytes))]
  }

  lemma EvictResult(table: Table, total: nat, nextSeq: nat, index: Index, qs: Queues, m: string,
                    ids: seq<Uuid>, t: Table, removed: nat, freed: nat)
    requires Consistent(table, total, nextSeq, index, qs) && ColonFree(m)
    requires |ids| <= |QueueOf(qs, m)| && forall i :: 0 <= i < |ids| ==> ids[i] == QueueOf(qs, m)[i].id
    requires t == table - KeysOf(m, ids) && Freed(table, t, m, removed, freed)
    ensures removed == |ids| && freed == BytesOf(QueueOf(qs, m)[..|ids|]) <= total
    ensures |ids| <= Entry(index, m).count && freed <= Entry(index, m).bytes
    ensures Consistent(t, total - freed, nextSeq, Lowered(index, m, removed, freed), Kept(qs, m, |ids|))
  {
    hide Represents, IndexExact, Sum, Part, KeysOf, BytesOf, ColonFree;
    EvictedRows(table, qs, m, ids, t);
    EvictedAmounts(table, qs, m, |ids|, t, removed, freed);
    SettleIndex(table, t, index, m, removed, freed);
    hide Freed;
  }

  lemma EvictedRows(table: Table, qs: Queues, m: string, ids: seq<Uuid>, t: Table)
    requires Represents(table, qs) && ColonFree(m) && t == table - KeysOf(m, ids)
    requires |ids| <= |QueueOf(qs, m)| && forall i :: 0 <= i < |ids| ==> ids[i] == QueueOf(qs, m)[i].id
    ensures Represents(t, Kept(qs, m, |ids|))
    ensures forall k :: k in t ==> k in table && t[k] == table[k]
  {
    hide Represents;
    var q, n := QueueOf(qs, m), |ids|;
    assert ids == seq(n, i requires 0 <= i < n => q[i].id);
    EvictionIsRemoval(table, qs, m, n);
    RemoveKeys(table, qs, KeysOf(m, ids));
  }

  lemma EvictedAmounts(table: Table, qs: Queues, m: string, n: nat, t: Table, removed: nat, freed: nat)
    requires Represents(table, qs) && ColonFree(m) && n <= |QueueOf(qs, m)|
    requires Represents(t, Kept(qs, m, n))
    requires Freed(table, t, m, removed, freed)
    ensures removed == n && freed == BytesOf(QueueOf(qs, m)[..n])
  {
    hide Represents, Sum, Part, ColonFree;
    PartMatchesQueue(table, qs, m);
    PartMatchesQueue(t, Kept(qs, m, n), m);
    BytesSplit(QueueOf(qs, m), n);
    hide BytesOf;
  }

  lemma AppendResult(table: Table, total: nat, nextSeq: nat, index: Index, qs: Queues, m: string, id: Uuid,
                     v: StoredValue)
    requires Consistent(table, total, nextSeq, index, qs) && ColonFree(m) && KeyFor(m, id) !in table
    requires v.s == nextSeq
    ensures Consistent(table[KeyFor(m, id) := v], total + |v.c|, nextSeq + 1, Bump(index, m, |v.c|),
                       qs[m := QueueOf(qs, m) + [Envelope(id, v.t, v.c, v.q)]])
  {
    hide Represents, IndexExact, Sum;
    AppendRow(table, qs, m, id, v);
    IndexInsert(table, index, m, id, v);
    SumUpdate(table, Weight, KeyFor(m, id), v);
  }

  lemma EnqueueResult(table: Table, total: nat, nextSeq: nat, index: Index, qs: Queues, m: string, id: Uuid,
                      v: StoredValue,
                      ids: seq<Uuid>, t: Table, removed: nat, freed: nat)
    requires Consistent(table, total, nextSeq, index, qs) && ColonFree(m) && KeyFor(m, id) !in table && v.s == nextSeq
    requires |ids| == Evicted(QueueOf(qs, m), |v.c|) && forall i :: 0 <= i < |ids| ==> ids[i] == QueueOf(qs, m)[i].id
    requires t == table - KeysOf(m, ids) && Freed(table, t, m, removed, freed)
    ensures freed == BytesOf(QueueOf(qs, m)[..|ids|])
    ensures Consistent(t[KeyFor(m, id) := v], SatSub(total + |v.c|, freed), nextSeq + 1,
                       index[m := Usage(SatSub(Entry(index, m).count, |ids|) + 1,
                                        SatSub(Entry(index, m).bytes, freed) + |v.c|)],
                       EnqueueSpec(qs, m, Envelope(id, v.t, v.c, v.q)))
  {
    hide Consistent, Freed, Evicted, Kept, Lowered, Bump, EnqueueSpec, KeyFor, KeysOf, ColonFree, BytesOf, Entry;
    EvictResult(table, total, nextSeq, index, qs, m, ids, t, removed, freed);
    NewKey(table, t, KeyFor(m, id), KeysOf(m, ids));
    AppendResult(t, total - freed, nextSeq, Lowered(index, m, removed, freed), Kept(qs, m, |ids|), m, id, v);
    LowerThenBump(index, m, removed, freed, |v.c|);
    EvictThenAppend(qs, m, Envelope(id, v.t, v.c, v.q));
  }

  lemma NewKey(table: Table, t: Table, k: string, gone: set<string>)
    requires t == table - gone && k !in table
    ensures k !in t
  {
  }

  lemma AckResult(table: Table, total: nat, nextSeq: nat, index: Index, qs: Queues, m: string,
                  ids: seq<Uuid>, t: Table, removed: nat, freed: nat)
    requires Consistent(table, total, nextSeq, index, qs) && ColonFree(m)
    requires t == table - KeysOf(m, ids) && Freed(table, t, m, removed, freed)
    ensures var qs' := AckSpec(qs, m, IdSet(ids));
            && removed == |QueueOf(qs, m)| - |QueueOf(qs', m)|
            && Consistent(t, SatSub(total, freed), nextSeq,
                          if removed > 0 && m in index
                          then index[m := Usage(SatSub(index[m].count, removed), SatSub(index[m].bytes, freed))]
                          else index, qs')
  {
    hide Represents, IndexExact, Sum, Part, KeysOf, ColonFree, AckSpec;
    AckIsRemoval(table, qs, m, ids);
    RemoveKeys(table, qs, KeysOf(m, ids));
    assert forall k :: k in t ==> k in table && t[k] == table[k];
    AckIndex(table, index, m, t, removed, freed);
    AckAmounts(table, qs, m, AckSpec(qs, m, IdSet(ids)), t, removed, freed);
    hide Freed;
  }

  lemma AckAmounts(table: Table, qs: Queues, m: string, qs': Queues, t: Table, removed: nat, freed: nat)
    requires Represents(table, qs) && Represents(t, qs') && ColonFree(m) && Freed(table, t, m, removed, freed)
    ensures removed == |QueueOf(qs, m)| - |QueueOf(qs', m)| && freed <= Sum(table, Weight)
  {
    hide Represents, Sum, Part, ColonFree;
    PartMatchesQueue(table, qs, m);
    PartMatchesQueue(t, qs', m);
  }

  /** An ack leaves the index alone when it removes nothing or there is no entry. */
  lemma AckIndex(table: Table, index: Index, m: string, t: Table, removed: nat, freed: nat)
    requires IndexExact(table, index) && ColonFree(m) && Freed(table, t, m, removed, freed)
    requires forall k :: k in t ==> k in table && t[k] == table[k]
    ensures IndexExact(t, if removed > 0 && m in index
                          then index[m := Usage(SatSub(index[m].count, removed), SatSub(index[m].bytes, freed))]
                          else index)
  {
    hide IndexExact, Sum, Part, ColonFree;
    SettleIndex(table, t, index, m, removed, freed);
    if m !in index { SettleAbsent(table, t, index, m, removed, freed); }
    if removed == 0 {
      NothingFreed(table, t, m, freed);
      assert m in index ==> index[m := Usage(Entry(index, m).count, Entry(index, m).bytes)] == index;
    }
  }

  lemma PurgeResult(table: Table, total: nat, nextSeq: nat, index: Index, qs: Queues, m: string, t: Table, freed: nat)
    requires Consistent(table, total, nextSeq, index, qs) && ColonFree(m)
    requires t == table - Part(table, m).Keys && Freed(table, t, m, |Part(table, m)|, freed)
    ensures Consistent(t, SatSub(total, freed), nextSeq, index - {m}, PurgeSpec(qs, m))
    ensures |Part(table, m)| == |QueueOf(qs, m)|
  {
    hide Represents, Sum, IndexExact, Part;
    PartMatchesQueue(table, qs, m);
    PurgeIsRemoval(table, qs, m);
    RemoveKeys(table, qs, Part(table, m).Keys);
    SettleIndex(table, t, index, m, |Part(table, m)|, freed);
    PurgeIndex(table, t, index, m, freed);
  }

  /** Dropping the index entry of an emptied mailbox is exact. */
  lemma PurgeIndex(table: Table, t: Table, index: Index, m: string, freed: nat)
    requires IndexExact(table, index) && ColonFree(m)
    requires t == table - Part(table, m).Keys && Freed(table, t, m, |Part(table, m)|, freed)
    ensures IndexExact(t, index - {m})
  {
    assert Part(t, m) == map[];
    EmptyExact();
    forall o | ColonFree(o) ensures Entry(index - {m}, o) == Usage(|Part(t, o)|, Sum(Part(t, o), Weight)) {
      assert Entry(index, o) == Usage(|Part(table, o)|, Sum(Part(table, o), Weight));
    }
  }

  lemma SweepResult(table: Table, total: nat, nextSeq: nat, index: Index, qs: Queues, cutoff: nat,
                    freed: nat, per: Index, index': Index)
    requires Consistent(table, total, nextSeq, index, qs)
    requires Sum(table - Stale(table, cutoff), Weight) + freed == Sum(table, Weight)
    requires Tallied(table, table - Stale(table, cutoff), per)
    requires forall m :: Entry(index', m) == Settled(index, per, {}, m)
    ensures Consistent(table - Stale(table, cutoff), SatSub(total, freed), nextSeq, index', SweepSpec(qs, cutoff))
    ensures |Stale(table, cutoff)| == |table| - |table - Stale(table, cutoff)|
  {
    hide Represents, Sum, Part, ColonFree, Stale;
    var t := table - Stale(table, cutoff);
    SweepIsRemoval(table, qs, cutoff);
    RemoveKeys(table, qs, Stale(table, cutoff));
    forall m | ColonFree(m) ensures Entry(index', m) == Usage(|Part(t, m)|, Sum(Part(t, m), Weight)) {
      assert Entry(index, m) == Usage(|Part(table, m)|, Sum(Part(table, m), Weight));
      assert TalliedFor(table, t, per, m);
    }
    StaleWithin(table, cutoff);
    Remaining(table, Stale(table, cutoff));
  }

  lemma StaleWithin(table: Table, cutoff: nat)
    ensures Stale(table, cutoff) <= table.Keys
  {
  }

  lemma Remaining(table: Table, gone: set<string>)
    requires gone <= table.Keys
    ensures |gone| == |table| - |table - gone|
  {
    assert table.Keys == (table - gone).Keys + gone;
    assert |table| == |table.Keys| && |table - gone| == |(table - gone).Keys|;
  }

  class QueueStore {
    var table: Table
    var totalBytes: nat
    var nextSeq: nat
    var index: Index
    ghost var queues: Queues

    ghost predicate Valid()
      reads this
    {
      Consistent(table, totalBytes, nextSeq, index, queues)
    }

    /** Open on the durable table, as after a crash at any point: whatever the memory held is
        rebuilt by the scan, and the sequence counter starts past every stored one. */
    constructor (db: Table, ghost qs: Queues)
      requires Represents(db, qs)
      ensures Valid() && table == db && queues == qs
    {
      var total, maxSeq, idx := ScanTotals(db, qs);
      table, totalBytes, nextSeq, index, queues := db, total, maxSeq + 1, idx, qs;
    }

    /** True when `incomingLen` more bytes would pass the global disk backstop. */
    predicate WouldExceedGlobal(incomingLen: nat)
      reads this
    {
      totalBytes + incomingLen > GLOBAL_QUEUE_DISK_CAP_BYTES
    }

    /** Everything queued for a mailbox, oldest first; nothing is removed. */
    method Flush(mailbox: string) returns (out: seq<Envelope>)
      requires Valid() && ColonFree(mailbox)
      ensures out == QueueOf(queues, mailbox)
    {
      var rows := ReadMailbox(table, mailbox, queues);
      out := Envelopes(rows);
    }

    method IsEmpty(mailbox: string) returns (empty: bool)
      requires Valid() && ColonFree(mailbox)
      ensures empty <==> QueueOf(queues, mailbox) == []
    {
      var keys := set k | k in table && InRange(k, RangeLow(mailbox), RangeHigh(mailbox));
      empty := keys == {};
      PartMatchesQueue(table, queues, mailbox);
      assert Part(table, mailbox).Keys == keys;
      assert |Part(table, mailbox)| == |Part(table, mailbox).Keys|;
    }

    /** Append an envelope, evicting the oldest ones first when a per-mailbox cap is in the way.
        The index alone decides whether the mailbox has to be read. */
    method Enqueue(mailbox: string, id: Uuid, envelopeType: string, ciphertext: Bytes, now: nat) returns (evicted: nat)
      requires Valid() && ColonFree(mailbox) && KeyFor(mailbox, id) !in table
      modifies this
      ensures Valid()
      ensures evicted == Evicted(QueueOf(old(queues), mailbox), |ciphertext|)
      ensures queues == EnqueueSpec(old(queues), mailbox, Envelope(id, envelopeType, ciphertext, now))
      ensures totalBytes <= old(totalBytes) + |ciphertext|
    {
      hide Consistent, Represents, EnqueueSpec, Evicted, Freed, BytesOf, KeyFor, ColonFree, KeysOf, SatSub, Entry,
          IndexExact;
      Interpreted(table, totalBytes, nextSeq, index, queues);
      var incomingLen := |ciphertext|;
      var s := nextSeq;
      var value := StoredValue(envelopeType, ciphertext, now, s);
      var Usage(curCount, curBytes) := Entry(index, mailbox);
      IndexTells(table, totalBytes, nextSeq, index, queues, mailbox);
      var evictIds, evictBytes := EvictionsFor(table, mailbox, curCount, curBytes, incomingLen, queues);
      var t, removed, freed := RemoveRows(table, mailbox, evictIds);
      EnqueueResult(table, totalBytes, s, index, queues, mailbox, id, value, evictIds, t, removed, freed);

      nextSeq := s + 1;
      table := t[KeyFor(mailbox, id) := value];
      totalBytes := SatSub(totalBytes + incomingLen, evictBytes);
      index := index[mailbox := Usage(SatSub(curCount, |evictIds|) + 1, SatSub(curBytes, evictBytes) + incomingLen)];
      queues := EnqueueSpec(queues, mailbox, Envelope(id, envelopeType, ciphertext, now));
      evicted := |evictIds|;
    }

    /** The offline half of a send: refused when the global backstop would be passed, so sends
        never take the stored total past the cap. */
    method QueueUnlessFull(mailbox: string, id: Uuid, envelopeType: string, ciphertext: Bytes, now: nat)
      returns (queued: bool)
      requires Valid() && ColonFree(mailbox) && KeyFor(mailbox, id) !in table
      modifies this
      ensures Valid()
      ensures queued <==> old(totalBytes) + |ciphertext| <= 4 * 1024 * 1024 * 1024
      ensures queues == if queued then EnqueueSpec(old(queues), mailbox, Envelope(id, envelopeType, ciphertext, now))
                        else old(queues)
      ensures totalBytes <= Max(old(totalBytes), 4 * 1024 * 1024 * 1024)
    {
      if WouldExceedGlobal(|ciphertext|) { return false; }
      var _ := Enqueue(mailbox, id, envelopeType, ciphertext, now);
      queued := true;
    }

    /** Remove acknowledged envelopes of one mailbox; unknown and repeated ids are ignored. */
    method Ack(mailbox: string, ids: seq<Uuid>) returns (removed: nat)
      requires Valid() && ColonFree(mailbox)
      modifies this
      ensures Valid()
      ensures queues == AckSpec(old(queues), mailbox, IdSet(ids))
      ensures removed == |QueueOf(old(queues), mailbox)| - |QueueOf(queues, mailbox)|
    {
      hide Consistent, Represents, AckSpec, Freed, KeyFor, ColonFree;
      Interpreted(table, totalBytes, nextSeq, index, queues);
      if ids == [] {
        AckNothing(queues, mailbox);
        assert IdSet(ids) == {};
        return 0;
      }
      var t, count, freed := RemoveRows(table, mailbox, ids);
      AckResult(table, totalBytes, nextSeq, index, queues, mailbox, ids, t, count, freed);
      table := t;
      totalBytes := SatSub(totalBytes, freed);
      if count > 0 && mailbox in index {
        index := index[mailbox := Usage(SatSub(index[mailbox].count, count), SatSub(index[mailbox].bytes, freed))];
      }
      queues := AckSpec(queues, mailbox, IdSet(ids));
      removed := count;
    }

    /** Drop every envelope of a mailbox. */
    method PurgeMailbox(mailbox: string) returns (removed: nat)
      requires Valid() && ColonFree(mailbox)
      modifies this
      ensures Valid()
      ensures queues == PurgeSpec(old(queues), mailbox)
      ensures removed == |QueueOf(old(queues), mailbox)|
    {
      hide Consistent, Represents, PurgeSpec, Freed, KeyFor, ColonFree;
      Interpreted(table, totalBytes, nextSeq, index, queues);
      var t, count, freed := RemoveRange(table, mailbox, queues);
      PurgeResult(table, totalBytes, nextSeq, index, queues, mailbox, t, freed);
      table := t;
      totalBytes := SatSub(totalBytes, freed);
      index := index - {mailbox};
      queues := PurgeSpec(queues, mailbox);
      removed := count;
    }

    /** Delete envelopes older than the TTL in every mailbox. */
    method SweepExpired(now: nat) returns (removed: nat)
      requires Valid()
      modifies this
      ensures Valid()
      ensures queues == SweepSpec(old(queues), SatSub(now, QUEUE_TTL_MS))
      ensures removed == |old(table)| - |table|
    {
      hide Consistent, Represents, SweepSpec, Freed, KeyFor, ColonFree;
      Interpreted(table, totalBytes, nextSeq, index, queues);
      var cutoff := SatSub(now, QUEUE_TTL_MS);
      var keys, freed, per := FindStale(table, cutoff, queues);
      var index1 := ApplyTallies(index, per);
      SweepResult(table, totalBytes, nextSeq, index, queues, cutoff, freed, per, index1);
      table := table - keys;
      totalBytes := SatSub(totalBytes, freed);
      index := index1;
      queues := SweepSpec(queues, cutoff);
      removed := |keys|;
    }
  }

  lemma NothingEvicted(q: seq<Envelope>, len: nat)
    requires Fits(q, len)
    ensures Evicted(q, len) == 0 && BytesOf(q[..0]) == 0
  {
  }

  lemma LowerThenBump(index: Index, m: string, count: nat, bytes: nat, more: nat)
    ensures Bump(Lowered(index, m, count, bytes), m, more)
            == index[m := Usage(SatSub(Entry(index, m).count, count) + 1, SatSub(Entry(index, m).bytes, bytes) + more)]
  {
  }

  lemma EvictThenAppend(qs: Queues, m: string, e: Envelope)
    ensures var n := Evicted(QueueOf(qs, m), |e.ciphertext|);
            Kept(qs, m, n)[m := QueueOf(Kept(qs, m, n), m) + [e]] == EnqueueSpec(qs, m, e)
  {
  }

  lemma AckNothing(qs: Queues, m: string)
    ensures AckSpec(qs, m, {}) == qs
  {
    if m in qs { FilterAll(qs[m], NotAmong({})); }
  }
}
