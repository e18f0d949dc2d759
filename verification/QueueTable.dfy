/** How the one `envelopes` table represents the queues of all mailboxes. */
module QueueTable {
  import opened Tables
  import opened Keys
  import opened QueueSpec

  /** A table value: type, ciphertext, queue time and enqueue sequence number. */
  datatype StoredValue = StoredValue(t: string, c: Bytes, q: nat, s: nat)

  type Table = map<string, StoredValue>

  function Weight(v: StoredValue): nat { |v.c| }

  predicate Holds(table: Table, m: string, e: Envelope) {
    var k := KeyFor(m, e.id);
    k in table && table[k].t == e.envelopeType && table[k].c == e.ciphertext && table[k].q == e.queuedAt
  }

  function SeqOf(table: Table, m: string, e: Envelope): nat
    requires Holds(table, m, e)
  {
    table[KeyFor(m, e.id)].s
  }

  ghost predicate InOrder(table: Table, m: string, q: seq<Envelope>) {
    && (forall i :: 0 <= i < |q| ==> Holds(table, m, q[i]))
    && (forall i, j :: 0 <= i < j < |q| ==> SeqOf(table, m, q[i]) < SeqOf(table, m, q[j]))
  }

  ghost predicate Homed(qs: Queues, k: string) {
    exists m, i :: m in qs && 0 <= i < |qs[m]| && k == KeyFor(m, qs[m][i].id)
  }

  /** The table holds exactly the queued envelopes, and sequence numbers give the queue order. */
  ghost predicate Represents(table: Table, qs: Queues) {
    && (forall m :: m in qs ==> ColonFree(m) && InOrder(table, m, qs[m]))
    && (forall k :: k in table ==> Homed(qs, k))
  }

  // ---------------------------------------------------------------- one mailbox's part

  /** The rows of one mailbox, as its key range selects them. */
  function Part(table: Table, m: string): Table {
    map k | k in table && InRange(k, RangeLow(m), RangeHigh(m)) :: table[k]
  }

  lemma PartSelects(table: Table, m: string, m': string, id: Uuid)
    requires ColonFree(m) && ColonFree(m')
    ensures InRange(KeyFor(m', id), RangeLow(m), RangeHigh(m)) <==> m == m'
  {
    RangeSelectsOwnKeys(m, m', id);
  }

  /** Distinct positions hold distinct envelopes. */
  lemma IdsDistinct(table: Table, m: string, q: seq<Envelope>, i: nat, j: nat)
    requires InOrder(table, m, q) && i < j < |q|
    ensures q[i].id != q[j].id
  {
    assert SeqOf(table, m, q[i]) < SeqOf(table, m, q[j]);
  }

  /** Every key in a mailbox's range belongs to an envelope of its queue. */
  lemma PartIsQueue(table: Table, qs: Queues, m: string, k: string) returns (i: nat)
    requires Represents(table, qs) && ColonFree(m)
    requires k in table && InRange(k, RangeLow(m), RangeHigh(m))
    ensures m in qs && i < |qs[m]| && k == KeyFor(m, qs[m][i].id)
  {
    assert Homed(qs, k);
    var m', j :| m' in qs && 0 <= j < |qs[m']| && k == KeyFor(m', qs[m'][j].id);
    PartSelects(table, m, m', qs[m'][j].id);
    i := j;
  }

  /** Without its oldest row, the table still holds the rest of the queue in order. */
  lemma TailInOrder(p: Table, m: string, q: seq<Envelope>)
    requires InOrder(p, m, q) && q != []
    ensures InOrder(p - {KeyFor(m, q[0].id)}, m, q[1..])
  {
    var rest := p - {KeyFor(m, q[0].id)};
    forall i | 0 <= i < |q[1..]|
      ensures Holds(rest, m, q[1..][i]) && SeqOf(rest, m, q[1..][i]) == SeqOf(p, m, q[i + 1])
    {
      assert SeqOf(p, m, q[0]) < SeqOf(p, m, q[i + 1]);
    }
    forall i, j | 0 <= i < j < |q[1..]| ensures SeqOf(rest, m, q[1..][i]) < SeqOf(rest, m, q[1..][j]) {
      assert SeqOf(p, m, q[i + 1]) < SeqOf(p, m, q[j + 1]);
    }
  }

  ghost predicate Covers(p: Table, m: string, q: seq<Envelope>) {
    forall k :: k in p ==> exists i :: 0 <= i < |q| && k == KeyFor(m, q[i].id)
  }

  lemma TailCovered(p: Table, m: string, q: seq<Envelope>)
    requires Covers(p, m, q) && q != []
    ensures Covers(p - {KeyFor(m, q[0].id)}, m, q[1..])
  {
    hide KeyFor;
    forall k | k in p - {KeyFor(m, q[0].id)} ensures exists i :: 0 <= i < |q[1..]| && k == KeyFor(m, q[1..][i].id) {
      var i :| 0 <= i < |q| && k == KeyFor(m, q[i].id);
      assert q[1..][i - 1] == q[i];
    }
  }

  lemma EmptySum(p: Table)
    ensures p == map[] ==> Sum(p, Weight) == 0
  {
  }

  lemma {:induction false} PartAlong(p: Table, m: string, q: seq<Envelope>)
    requires InOrder(p, m, q) && Covers(p, m, q)
    ensures |p| == |q| && Sum(p, Weight) == BytesOf(q)
  {
    hide KeyFor, Sum;
    if q == [] {
      assert p == map[];
      EmptySum(p);
    } else {
      var k0 := KeyFor(m, q[0].id);
      var rest := p - {k0};
      assert Holds(p, m, q[0]);
      SumRemove(p, Weight, k0);
      TailInOrder(p, m, q);
      TailCovered(p, m, q);
      PartAlong(rest, m, q[1..]);
    }
  }

  /** Counting and weighing a mailbox's rows gives its queue's length and bytes. */
  lemma PartMatchesQueue(table: Table, qs: Queues, m: string)
    requires Represents(table, qs) && ColonFree(m)
    ensures |Part(table, m)| == |QueueOf(qs, m)|
    ensures Sum(Part(table, m), Weight) == BytesOf(QueueOf(qs, m))
  {
    var p, q := Part(table, m), QueueOf(qs, m);
    forall k | k in p ensures exists i :: 0 <= i < |q| && k == KeyFor(m, q[i].id) {
      var i := PartIsQueue(table, qs, m, k);
    }
    forall i | 0 <= i < |q| ensures Holds(p, m, q[i]) {
      assert Holds(table, m, q[i]);
      PartSelects(table, m, m, q[i].id);
    }
    forall i, j | 0 <= i < j < |q| ensures SeqOf(p, m, q[i]) < SeqOf(p, m, q[j]) {
      assert SeqOf(table, m, q[i]) < SeqOf(table, m, q[j]);
    }
    PartAlong(p, m, q);
  }

  /** Taking one row out or putting one in touches its own mailbox's part only. */
  lemma PartRemove(table: Table, m: string, id: Uuid, other: string)
    requires ColonFree(m) && ColonFree(other)
    ensures Part(table - {KeyFor(m, id)}, other) ==
            if other == m then Part(table, m) - {KeyFor(m, id)} else Part(table, other)
  {
    PartSelects(table, other, m, id);
  }

  lemma PartInsert(table: Table, m: string, id: Uuid, v: StoredValue, other: string)
    requires ColonFree(m) && ColonFree(other)
    ensures Part(table[KeyFor(m, id) := v], other) ==
            if other == m then Part(table, m)[KeyFor(m, id) := v] else Part(table, other)
  {
    PartSelects(table, other, m, id);
  }

  // ---------------------------------------------------------------- removing rows

  function Alive(m: string, dead: set<string>): Envelope -> bool {
    (e: Envelope) => KeyFor(m, e.id) !in dead
  }

  /** What remains of every queue when the rows with keys in `dead` are deleted. */
  function Survivors(qs: Queues, dead: set<string>): Queues {
    map m | m in qs :: Filter(qs[m], Alive(m, dead))
  }

  lemma ConsInOrder(t: Table, m: string, e: Envelope, f: seq<Envelope>)
    requires InOrder(t, m, f) && Holds(t, m, e)
    requires forall j :: 0 <= j < |f| ==> Holds(t, m, f[j]) && SeqOf(t, m, e) < SeqOf(t, m, f[j])
    ensures InOrder(t, m, [e] + f)
  {
    hide KeyFor;
    var r := [e] + f;
    forall i, j | 0 <= i < j < |r|
      ensures Holds(t, m, r[i]) && Holds(t, m, r[j]) && SeqOf(t, m, r[i]) < SeqOf(t, m, r[j])
    {
      assert Holds(t, m, f[j - 1]);
      if i > 0 { assert SeqOf(t, m, f[i - 1]) < SeqOf(t, m, f[j - 1]); }
    }
  }

  lemma RestInOrder(table: Table, m: string, q: seq<Envelope>)
    requires InOrder(table, m, q) && q != []
    ensures InOrder(table, m, q[1..]) && Holds(table, m, q[0])
    ensures forall i :: 0 <= i < |q[1..]| ==>
              Holds(table, m, q[1..][i]) && SeqOf(table, m, q[0]) < SeqOf(table, m, q[1..][i])
  {
    hide KeyFor;
    assert Holds(table, m, q[0]);
    forall i | 0 <= i < |q[1..]|
      ensures Holds(table, m, q[1..][i]) && SeqOf(table, m, q[0]) < SeqOf(table, m, q[1..][i])
    {
      assert Holds(table, m, q[i + 1]) && SeqOf(table, m, q[0]) < SeqOf(table, m, q[i + 1]);
    }
    forall i, j | 0 <= i < j < |q[1..]| ensures SeqOf(table, m, q[1..][i]) < SeqOf(table, m, q[1..][j]) {
      assert SeqOf(table, m, q[i + 1]) < SeqOf(table, m, q[j + 1]);
    }
  }

  lemma {:induction false} FilterInOrder(table: Table, m: string, q: seq<Envelope>, dead: set<string>)
    requires InOrder(table, m, q)
    ensures InOrder(table - dead, m, Filter(q, Alive(m, dead)))
  {
    hide KeyFor;
    if q != [] {
      var f, t' := Filter(q[1..], Alive(m, dead)), table - dead;
      RestInOrder(table, m, q);
      FilterInOrder(table, m, q[1..], dead);
      if Alive(m, dead)(q[0]) {
        forall j | 0 <= j < |f| ensures Holds(t', m, f[j]) && SeqOf(t', m, q[0]) < SeqOf(t', m, f[j]) {
          FilterMember(q[1..], Alive(m, dead));
          assert f[j] in q[1..];
        }
        ConsInOrder(t', m, q[0], f);
      }
    }
  }

  lemma SurvivorHomed(qs: Queues, dead: set<string>, k: string)
    requires Homed(qs, k) && k !in dead
    ensures Homed(Survivors(qs, dead), k)
  {
    hide KeyFor;
    var m, i :| m in qs && 0 <= i < |qs[m]| && k == KeyFor(m, qs[m][i].id);
    FilterMember(qs[m], Alive(m, dead));
    var q := Survivors(qs, dead)[m];
    assert qs[m][i] in q;
    var j :| 0 <= j < |q| && q[j] == qs[m][i];
  }

  /** Deleting any set of keys leaves a table that represents the surviving envelopes. */
  lemma RemoveKeys(table: Table, qs: Queues, dead: set<string>)
    requires Represents(table, qs)
    ensures Represents(table - dead, Survivors(qs, dead))
  {
    hide KeyFor, InOrder, Homed, Filter;
    var t', qs' := table - dead, Survivors(qs, dead);
    forall m | m in qs' ensures InOrder(t', m, qs'[m]) { FilterInOrder(table, m, qs[m], dead); }
    forall k | k in t' ensures Homed(qs', k) { SurvivorHomed(qs, dead, k); }
  }

  /** A row with a fresh key and the largest sequence number joins the end of its queue. */
  lemma AppendRow(table: Table, qs: Queues, m: string, id: Uuid, v: StoredValue)
    requires Represents(table, qs) && ColonFree(m) && KeyFor(m, id) !in table
    requires forall k :: k in table ==> table[k].s < v.s
    ensures Represents(table[KeyFor(m, id) := v], qs[m := QueueOf(qs, m) + [Envelope(id, v.t, v.c, v.q)]])
  {
    hide KeyFor, ColonFree;
    var k0, e := KeyFor(m, id), Envelope(id, v.t, v.c, v.q);
    var t', qs' := table[k0 := v], qs[m := QueueOf(qs, m) + [e]];
    forall n | n in qs' ensures InOrder(t', n, qs'[n]) {
      var q := QueueOf(qs, n);
      forall i | 0 <= i < |qs'[n]| ensures Holds(t', n, qs'[n][i]) {
        if i < |q| { assert Holds(table, n, q[i]); }
      }
      forall i, j | 0 <= i < j < |qs'[n]| ensures SeqOf(t', n, qs'[n][i]) < SeqOf(t', n, qs'[n][j]) {
        assert Holds(table, n, q[i]);
        if j < |q| { assert SeqOf(table, n, q[i]) < SeqOf(table, n, q[j]); }
      }
    }
    forall k | k in t' ensures Homed(qs', k) {
      if k == k0 {
        assert qs'[m][|QueueOf(qs, m)|] == e;
      } else {
        assert Homed(qs, k);
        var n, i :| n in qs && 0 <= i < |qs[n]| && k == KeyFor(n, qs[n][i].id);
        assert qs'[n][i] == qs[n][i];
      }
    }
  }

  // ---------------------------------------------------------------- each operation's rows

  function KeysOf(m: string, ids: seq<Uuid>): set<string> { set id | id in ids :: KeyFor(m, id) }

  lemma {:induction false} FilterAll(q: seq<Envelope>, keep: Envelope -> bool)
    requires forall e :: e in q ==> keep(e)
    ensures Filter(q, keep) == q
  {
    FilterSuffix(q, keep, 0);
  }

  /** Deleting keys of one mailbox leaves all other queues alone. */
  lemma OthersSurvive(qs: Queues, m: string, dead: set<string>, other: string)
    requires ColonFree(m) && other in qs && ColonFree(other) && other != m
    requires forall k :: k in dead ==> InRange(k, RangeLow(m), RangeHigh(m))
    ensures Filter(qs[other], Alive(other, dead)) == qs[other]
  {
    forall e | e in qs[other] ensures Alive(other, dead)(e) {
      RangeSelectsOwnKeys(m, other, e.id);
    }
    FilterAll(qs[other], Alive(other, dead));
  }

  lemma AckIsRemoval(table: Table, qs: Queues, m: string, ids: seq<Uuid>)
    requires Represents(table, qs) && ColonFree(m)
    ensures Survivors(qs, KeysOf(m, ids)) == AckSpec(qs, m, IdSet(ids))
  {
    hide KeyFor;
    var dead, gone := KeysOf(m, ids), IdSet(ids);
    forall k | k in dead ensures InRange(k, RangeLow(m), RangeHigh(m)) {
      var id :| id in ids && k == KeyFor(m, id);
      PartSelects(table, m, m, id);
    }
    forall n | n in qs ensures Survivors(qs, dead)[n] == AckSpec(qs, m, gone)[n] {
      if n == m {
        forall e | e in qs[m] ensures Alive(m, dead)(e) == NotAmong(gone)(e) {
          if KeyFor(m, e.id) in dead {
            var id :| id in ids && KeyFor(m, e.id) == KeyFor(m, id);
            KeyForInjective(m, e.id, m, id);
          }
        }
        FilterAgree(qs[m], Alive(m, dead), NotAmong(gone));
      } else {
        OthersSurvive(qs, m, dead, n);
      }
    }
  }

  /** Deleting the oldest `n` rows of a queue. */
  lemma EvictionIsRemoval(table: Table, qs: Queues, m: string, n: nat)
    requires Represents(table, qs) && ColonFree(m) && n <= |QueueOf(qs, m)|
    ensures var ids := seq(n, i requires 0 <= i < n => QueueOf(qs, m)[i].id);
            Survivors(qs, KeysOf(m, ids)) == if m in qs then qs[m := qs[m][n..]] else qs
  {
    var q := QueueOf(qs, m);
    var ids := seq(n, i requires 0 <= i < n => q[i].id);
    AckIsRemoval(table, qs, m, ids);
    if m in qs {
      var gone := IdSet(ids);
      forall i | 0 <= i < |q| ensures NotAmong(gone)(q[i]) <==> n <= i {
        if i < n { assert ids[i] == q[i].id; }
        else {
          forall j | 0 <= j < n ensures ids[j] != q[i].id { IdsDistinct(table, m, q, j, i); }
        }
      }
      FilterSuffix(q, NotAmong(gone), n);
    }
  }

  lemma PurgeIsRemoval(table: Table, qs: Queues, m: string)
    requires Represents(table, qs) && ColonFree(m)
    ensures Survivors(qs, Part(table, m).Keys) == PurgeSpec(qs, m)
  {
    hide KeyFor, ColonFree, Filter;
    var dead := Part(table, m).Keys;
    forall n | n in qs ensures Survivors(qs, dead)[n] == PurgeSpec(qs, m)[n] {
      if n == m {
        NoneSurvives(table, m, qs[m]);
      } else {
        OthersSurvive(qs, m, dead, n);
      }
    }
  }

  lemma NoneSurvives(table: Table, m: string, q: seq<Envelope>)
    requires InOrder(table, m, q) && ColonFree(m)
    ensures Filter(q, Alive(m, Part(table, m).Keys)) == []
  {
    hide KeyFor, ColonFree;
    var dead := Part(table, m).Keys;
    forall i | 0 <= i < |q| ensures !Alive(m, dead)(q[i]) {
      assert Holds(table, m, q[i]);
      PartSelects(table, m, m, q[i].id);
    }
    FilterSuffix(q, Alive(m, dead), |q|);
  }

  /** A mailbox whose rows are all gone need not be mentioned. */
  lemma ForgetEmpty(table: Table, qs: Queues, m: string)
    requires Represents(table, qs) && m in qs && qs[m] == []
    ensures Represents(table, qs - {m})
  {
    hide KeyFor;
    forall k | k in table ensures Homed(qs - {m}, k) {
      assert Homed(qs, k);
      var o, i :| o in qs && 0 <= i < |qs[o]| && k == KeyFor(o, qs[o][i].id);
      assert (qs - {m})[o] == qs[o];
    }
  }

  ghost function TotalBytes(qs: Queues): nat { Sum(qs, BytesOf) }

  lemma WithoutMailbox(table: Table, qs: Queues, m: string)
    requires Represents(table, qs) && m in qs
    ensures Represents(table - Part(table, m).Keys, qs - {m})
    ensures Sum(table, Weight) == BytesOf(qs[m]) + Sum(table - Part(table, m).Keys, Weight)
  {
    assert ColonFree(m);
    hide Represents, Sum, BytesOf, ColonFree;
    var part := Part(table, m);
    SumSplit(table, part, Weight);
    PartMatchesQueue(table, qs, m);
    RemoveKeys(table, qs, part.Keys);
    PurgeIsRemoval(table, qs, m);
    ForgetEmpty(table - part.Keys, PurgeSpec(qs, m), m);
    assert PurgeSpec(qs, m) - {m} == qs - {m};
  }

  lemma NoRows(table: Table, qs: Queues)
    requires Represents(table, qs) && qs == map[]
    ensures table == map[]
  {
    assert forall k :: k in table ==> Homed(qs, k);
  }

  /** Weighing all rows gives the bytes of all queues. */
  lemma {:induction false} TotalMatchesQueues(table: Table, qs: Queues)
    requires Represents(table, qs)
    ensures Sum(table, Weight) == TotalBytes(qs)
    decreases |qs|
  {
    if qs == map[] {
      NoRows(table, qs);
      hide Represents;
    } else {
      hide Represents, Part, Sum, BytesOf;
      var m :| m in qs;
      WithoutMailbox(table, qs, m);
      SumRemove(qs, BytesOf, m);
      TotalMatchesQueues(table - Part(table, m).Keys, qs - {m});
    }
  }

  function Stale(table: Table, cutoff: nat): set<string> { set k | k in table && table[k].q < cutoff }

  lemma SweepIsRemoval(table: Table, qs: Queues, cutoff: nat)
    requires Represents(table, qs)
    ensures Survivors(qs, Stale(table, cutoff)) == SweepSpec(qs, cutoff)
  {
    var dead := Stale(table, cutoff);
    forall m | m in qs ensures Filter(qs[m], Alive(m, dead)) == Filter(qs[m], QueuedSince(cutoff)) {
      forall e | e in qs[m] ensures Alive(m, dead)(e) == QueuedSince(cutoff)(e) {
        var i :| 0 <= i < |qs[m]| && qs[m][i] == e;
        assert Holds(table, m, qs[m][i]);
      }
      FilterAgree(qs[m], Alive(m, dead), QueuedSince(cutoff));
    }
  }

  // ---------------------------------------------------------------- reading a queue back

  datatype Row = Row(id: Uuid, value: StoredValue)

  function ToEnvelope(r: Row): Envelope { Envelope(r.id, r.value.t, r.value.c, r.value.q) }

  function Envelopes(rows: seq<Row>): (q: seq<Envelope>)
    ensures |q| == |rows| && forall i :: 0 <= i < |q| ==> q[i] == ToEnvelope(rows[i])
  {
    seq(|rows|, i requires 0 <= i < |rows| => ToEnvelope(rows[i]))
  }

  function TotalLength(rows: seq<Row>): (n: nat)
    ensures n == BytesOf(Envelopes(rows))
  {
    if rows == [] then 0 else
      assert Envelopes(rows)[1..] == Envelopes(rows[1..]);
      |rows[0].value.c| + TotalLength(rows[1..])
  }

  predicate Ascending(rows: seq<Row>) {
    forall i, j :: 0 <= i < j < |rows| ==> rows[i].value.s < rows[j].value.s
  }

  predicate DistinctSeqs(rows: seq<Row>) {
    forall i, j :: 0 <= i < j < |rows| ==> rows[i].value.s != rows[j].value.s
  }

  /** `sort_by_key` on the sequence number: a stable insertion of each row in turn. */
  function SortBySeq(rows: seq<Row>): seq<Row> {
    if rows == [] then [] else Insert(rows[|rows| - 1], SortBySeq(rows[..|rows| - 1]))
  }

  function Insert(r: Row, rows: seq<Row>): seq<Row> {
    if rows == [] || r.value.s < rows[0].value.s then [r] + rows else [rows[0]] + Insert(r, rows[1..])
  }

  lemma {:induction false} InsertAscending(r: Row, rows: seq<Row>)
    requires Ascending(rows) && forall x :: x in rows ==> x.value.s != r.value.s
    ensures Ascending(Insert(r, rows))
    ensures forall x :: x in Insert(r, rows) <==> x == r || x in rows
  {
    if rows == [] || r.value.s < rows[0].value.s {
      assert forall x :: x in [r] + rows <==> x == r || x in rows;
    } else {
      InsertAscending(r, rows[1..]);
      var t := Insert(r, rows[1..]);
      assert rows == [rows[0]] + rows[1..];
      forall j | 0 <= j < |t| ensures rows[0].value.s < t[j].value.s {
        assert t[j] in t;
        if t[j] != r {
          var i :| 0 <= i < |rows[1..]| && rows[1..][i] == t[j];
          assert rows[i + 1] == t[j];
        } else {
          assert rows[0] in rows;
        }
      }
    }
  }

  lemma {:induction false} SortAscending(rows: seq<Row>)
    requires DistinctSeqs(rows)
    ensures Ascending(SortBySeq(rows))
    ensures forall x :: x in SortBySeq(rows) <==> x in rows
  {
    if rows != [] {
      var n := |rows| - 1;
      SortAscending(rows[..n]);
      assert rows == rows[..n] + [rows[n]];
      InsertAscending(rows[n], SortBySeq(rows[..n]));
    }
  }

  lemma EmptyUnlessInhabited(rows: seq<Row>)
    ensures rows == [] || rows[0] in rows
  {
  }

  /** Ascending sequences with the same rows are the same sequence. */
  lemma {:induction false} AscendingUnique(a: seq<Row>, b: seq<Row>)
    requires Ascending(a) && Ascending(b) && forall x :: x in a <==> x in b
    ensures a == b
  {
    if a == [] {
      EmptyUnlessInhabited(b);
    } else {
      assert a[0] in a;
      assert b[0] in b;
      var i :| 0 <= i < |b| && b[i] == a[0];
      var j :| 0 <= j < |a| && a[j] == b[0];
      assert i == 0 && j == 0;
      assert a == [a[0]] + a[1..] && b == [b[0]] + b[1..];
      forall x ensures x in a[1..] <==> x in b[1..] {
        if x in a[1..] { assert x.value.s > a[0].value.s && x in a; assert x in b && x != b[0]; }
        if x in b[1..] { assert x.value.s > b[0].value.s && x in b; assert x in a && x != a[0]; }
      }
      AscendingUnique(a[1..], b[1..]);
    }
  }

  ghost predicate RowsOf(table: Table, m: string, rows: seq<Row>) {
    && (forall r :: r in rows <==> KeyFor(m, r.id) in table && table[KeyFor(m, r.id)] == r.value)
    && (forall i, j :: 0 <= i < j < |rows| ==> rows[i].id != rows[j].id)
  }

  /** However the scan of a mailbox's range is ordered, sorting by sequence number yields the
      queue, oldest first. */
  lemma SortedRowsAreQueue(table: Table, qs: Queues, m: string, rows: seq<Row>)
    requires Represents(table, qs) && ColonFree(m) && RowsOf(table, m, rows)
    ensures Envelopes(SortBySeq(rows)) == QueueOf(qs, m)
  {
    var q := QueueOf(qs, m);
    forall i | 0 <= i < |q| ensures Holds(table, m, q[i]) {}
    var listed := seq(|q|, i requires 0 <= i < |q| => Row(q[i].id, table[KeyFor(m, q[i].id)]));
    forall i, j | 0 <= i < j < |q| ensures listed[i].value.s < listed[j].value.s {
      assert SeqOf(table, m, q[i]) < SeqOf(table, m, q[j]);
    }
    forall r ensures r in listed <==> r in rows {
      if r in rows {
        assert KeyFor(m, r.id) in table;
        PartSelects(table, m, m, r.id);
        var i := PartIsQueue(table, qs, m, KeyFor(m, r.id));
        KeyForInjective(m, r.id, m, q[i].id);
        assert listed[i] == r;
      }
      if r in listed {
        var i :| 0 <= i < |listed| && listed[i] == r;
        assert Holds(table, m, q[i]);
      }
    }
    forall i, j | 0 <= i < j < |rows| ensures rows[i].value.s != rows[j].value.s {
      assert rows[i] in listed && rows[j] in listed;
      var a :| 0 <= a < |listed| && listed[a] == rows[i];
      var b :| 0 <= b < |listed| && listed[b] == rows[j];
      assert a != b;
    }
    SortAscending(rows);
    AscendingUnique(SortBySeq(rows), listed);
    forall i | 0 <= i < |q| ensures ToEnvelope(listed[i]) == q[i] { assert Holds(table, m, q[i]); }
  }
}
