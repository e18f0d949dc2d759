/** Keys of the two redb tables that hold one row per mailbox entry or per file chunk.
    Rust compares `&str` keys byte by byte; for UTF-8 that is the order of code points, which is
    Dafny's order on `char`. */
module Keys {
  import opened Tables

  predicate IsIdChar(c: char) {
    'a' <= c <= 'z' || 'A' <= c <= 'Z' || '0' <= c <= '9' || c == '-' || c == '_'
  }

  predicate ValidRecipientId(id: string) {
    "mbx_" <= id && 36 <= |id| <= 128 && forall i :: 0 <= i < |id| ==> IsIdChar(id[i])
  }

  predicate ValidBundleId(id: string) {
    16 <= |id| <= 128 && forall i :: 0 <= i < |id| ==> IsIdChar(id[i])
  }

  /** All the stores need of an identifier: the separator does not occur in it. */
  predicate ColonFree(id: string) {
    forall i :: 0 <= i < |id| ==> id[i] != ':'
  }

  lemma ValidIdsAreColonFree(id: string)
    requires ValidRecipientId(id) || ValidBundleId(id)
    ensures ColonFree(id)
  {
    forall i | 0 <= i < |id| ensures id[i] != ':' { assert IsIdChar(id[i]); }
  }

  predicate IsHex(c: char) { '0' <= c <= '9' || 'a' <= c <= 'f' }

  /** The canonical 8-4-4-4-12 text of a UUID, which stands for the UUID itself. */
  predicate IsUuidText(s: string) {
    |s| == 36 &&
    forall i :: 0 <= i < 36 ==> if i in {8, 13, 18, 23} then s[i] == '-' else IsHex(s[i])
  }

  type Uuid = s: string | IsUuidText(s) witness "00000000-0000-0000-0000-000000000000"

  // ---------------------------------------------------------------- lexicographic ranges

  /** Strict lexicographic order, the order of table keys. */
  predicate Below(a: string, b: string) {
    b != [] && (a == [] || a[0] < b[0] || (a[0] == b[0] && Below(a[1..], b[1..])))
  }

  /** The half-open range a table scan `lo..hi` visits. */
  predicate InRange(k: string, lo: string, hi: string) {
    !Below(k, lo) && Below(k, hi)
  }

  function RangeLow(id: string): string { id + ":" }

  function RangeHigh(id: string): string { id + ";" }

  lemma SingleCharRange(k: string)
    ensures InRange(k, ":", ";") <==> ":" <= k
  {
    assert ":"[1..] == "" == ";"[1..];
    if k != [] {
      assert Below(k, ";") <==> k[0] < ';';
      assert !Below(k, ":") <==> ':' <= k[0];
      assert (k[0] as int < ';' as int && ':' as int <= k[0] as int) <==> k[0] == ':';
      assert ":" <= k <==> k[0] == ':';
    }
  }

  /** The range from `id:` to `id;` holds exactly the strings that start with `id:`. */
  lemma {:induction false} RangeIsPrefix(id: string, k: string)
    ensures InRange(k, RangeLow(id), RangeHigh(id)) <==> RangeLow(id) <= k
  {
    if id == [] {
      assert RangeLow(id) == ":" && RangeHigh(id) == ";";
      SingleCharRange(k);
    } else {
      assert RangeLow(id)[1..] == RangeLow(id[1..]) && RangeHigh(id)[1..] == RangeHigh(id[1..]);
      if k != [] {
        RangeIsPrefix(id[1..], k[1..]);
        if RangeLow(id) <= k {
          assert k[..|id| + 1][0] == k[0] && RangeLow(id[1..]) == k[1..][..|id|];
        }
        if k[0] == id[0] && RangeLow(id[1..]) <= k[1..] {
          assert k == [k[0]] + k[1..];
        }
      }
    }
  }

  // ---------------------------------------------------------------- splitting at the separator

  /** `split_once(':')`. */
  function SplitOnce(s: string): (r: Option<(string, string)>)
    ensures r.Some? ==> ColonFree(r.value.0) && s == r.value.0 + ":" + r.value.1
    ensures r.None? ==> ColonFree(s)
  {
    if s == [] then None
    else if s[0] == ':' then
      assert s == [] + ":" + s[1..];
      Some(([], s[1..]))
    else match SplitOnce(s[1..])
      case None => None
      case Some((a, b)) =>
        assert s == [s[0]] + s[1..] && [s[0]] + s[1..] == [s[0]] + a + ":" + b;
        Some(([s[0]] + a, b))
  }

  /** Splitting inverts joining, so the parts of a key are determined by the key. */
  lemma {:induction false} SplitJoined(id: string, rest: string)
    requires ColonFree(id)
    ensures SplitOnce(id + ":" + rest) == Some((id, rest))
  {
    var s := id + ":" + rest;
    if id == [] {
      assert s[1..] == rest;
    } else {
      assert s[1..] == id[1..] + ":" + rest;
      SplitJoined(id[1..], rest);
      assert [s[0]] + id[1..] == id;
    }
  }

  /** One identifier's range contains a joined key exactly when the key is that identifier's. */
  lemma RangeSelectsOwnKeys(id: string, other: string, rest: string)
    requires ColonFree(id) && ColonFree(other)
    ensures InRange(other + ":" + rest, RangeLow(id), RangeHigh(id)) <==> id == other
  {
    var k := other + ":" + rest;
    RangeIsPrefix(id, k);
    if RangeLow(id) <= k {
      assert k == id + ":" + k[|id| + 1..];
      SplitJoined(id, k[|id| + 1..]);
      SplitJoined(other, rest);
    }
    if id == other {
      assert k == RangeLow(id) + rest;
    }
  }

  // ---------------------------------------------------------------- queue keys

  function KeyFor(mailbox: string, id: Uuid): string { mailbox + ":" + id }

  function ParseMailbox(key: string): Option<string> {
    match SplitOnce(key)
    case None => None
    case Some((mailbox, _)) => Some(mailbox)
  }

  function ParseId(key: string): Option<Uuid> {
    match SplitOnce(key)
    case None => None
    case Some((_, id)) => if IsUuidText(id) then Some(id) else None
  }

  /** Parsing a queue key gives back what it was built from. */
  lemma KeyForParses(mailbox: string, id: Uuid)
    requires ColonFree(mailbox)
    ensures ParseMailbox(KeyFor(mailbox, id)) == Some(mailbox)
    ensures ParseId(KeyFor(mailbox, id)) == Some(id)
  {
    SplitJoined(mailbox, id);
  }

  lemma KeyForInjective(m: string, id: Uuid, m': string, id': Uuid)
    requires ColonFree(m) && ColonFree(m')
    ensures KeyFor(m, id) == KeyFor(m', id') <==> m == m' && id == id'
  {
    SplitJoined(m, id);
    SplitJoined(m', id');
  }

  // ---------------------------------------------------------------- chunk keys

  function Digit(d: nat): char
    requires d < 10
  {
    ('0' as int + d) as char
  }

  /** The decimal text of a number. */
  function Decimal(n: nat): (s: string)
    ensures s != [] && forall i :: 0 <= i < |s| ==> '0' <= s[i] <= '9'
  {
    if n < 10 then [Digit(n)] else Decimal(n / 10) + [Digit(n % 10)]
  }

  /** The number a digit string denotes, read from its last digit. */
  function Denotes(s: string): int {
    if s == [] then 0 else 10 * Denotes(s[..|s| - 1]) + (s[|s| - 1] as int - '0' as int)
  }

  lemma {:induction false} DecimalDenotes(n: nat)
    ensures Denotes(Decimal(n)) == n
  {
    var s := Decimal(n);
    if n < 10 {
      assert s[..|s| - 1] == [];
    } else {
      assert s[..|s| - 1] == Decimal(n / 10);
      DecimalDenotes(n / 10);
    }
  }

  function ChunkKey(transferId: string, index: nat): string {
    transferId + ":" + Decimal(index)
  }

  /** Different chunks of valid transfers never share a key. */
  lemma ChunkKeyInjective(t: string, i: nat, t': string, i': nat)
    requires ColonFree(t) && ColonFree(t')
    ensures ChunkKey(t, i) == ChunkKey(t', i') <==> t == t' && i == i'
  {
    SplitJoined(t, Decimal(i));
    SplitJoined(t', Decimal(i'));
    DecimalDenotes(i);
    DecimalDenotes(i');
  }
}
