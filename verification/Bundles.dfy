/** Hosted invite bundles: uploaded once, fetched until they expire, pruned lazily. */
module Bundles {
  import opened Tables
  import opened Keys

  const MAX_BUNDLES: nat := 50_000
  const MAX_BUNDLE_BYTES: nat := 16 * 1024
  const MAX_TOTAL_BUNDLE_BYTES: nat := 64 * 1024 * 1024
  const MAX_BUNDLE_TTL_MS: nat := 30 * 24 * 60 * 60 * 1000
  const MIN_BUNDLE_TTL_MS: nat := 60_000
  const BUNDLE_PRUNE_MIN_INTERVAL_MS: nat := 30 * 1000

  datatype HostedBundle = HostedBundle(ciphertext: Bytes, createdAtMs: nat, expiresAtMs: nat)

  datatype UploadError = BadBundle | BadPow | BundleExists | RelayFull

  datatype Fetched = Fetched(ciphertext: Bytes, expiresAtMs: nat)

  /** The bundles held and when they were last scanned for expired ones. */
  datatype Hosted = Hosted(bundles: map<string, HostedBundle>, lastPrune: nat)

  function Size(b: HostedBundle): nat { |b.ciphertext| }

  ghost function TotalBytes(bundles: map<string, HostedBundle>): nat { Sum(bundles, Size) }

  // ---------------------------------------------------------------- the operations

  function Unexpired(bundles: map<string, HostedBundle>, now: nat): map<string, HostedBundle> {
    map id | id in bundles && bundles[id].expiresAtMs > now :: bundles[id]
  }

  /** The scan runs at most once an interval. */
  predicate PruneDue(last: nat, now: nat) {
    SatSub(now, last) >= BUNDLE_PRUNE_MIN_INTERVAL_MS || last == 0
  }

  function PruneSpec(h: Hosted, now: nat): Hosted {
    if PruneDue(h.lastPrune, now) then Hosted(Unexpired(h.bundles, now), now) else h
  }

  /** At most 30 days from now and at least a minute. */
  function Clamp(expiresAt: nat, now: nat): (e: nat)
    ensures now + MIN_BUNDLE_TTL_MS <= e <= now + MAX_BUNDLE_TTL_MS
    ensures now + MIN_BUNDLE_TTL_MS <= expiresAt <= now + MAX_BUNDLE_TTL_MS ==> e == expiresAt
  {
    Max(Min(expiresAt, now + MAX_BUNDLE_TTL_MS), now + MIN_BUNDLE_TTL_MS)
  }

  /** An upload as it reaches the relay; the clock is read to prune, to look and to stamp. */
  datatype Upload = Upload(id: string, ciphertext: Bytes, expiresAtMs: nat, powOk: bool, pruneAt: nat, lookAt: nat,
                           stampAt: nat)

  ghost function UploadSpec(h: Hosted, u: Upload): (Hosted, Result<nat, UploadError>) {
    if !ValidBundleId(u.id) || |u.ciphertext| > MAX_BUNDLE_BYTES then (h, Err(BadBundle))
    else if !u.powOk then (h, Err(BadPow))
    else
      var p := PruneSpec(h, u.pruneAt);
      if u.id in p.bundles && p.bundles[u.id].expiresAtMs > u.lookAt then
        (p, if p.bundles[u.id].ciphertext == u.ciphertext then Ok(p.bundles[u.id].expiresAtMs) else Err(BundleExists))
      else if |p.bundles| >= MAX_BUNDLES || TotalBytes(p.bundles) + |u.ciphertext| > MAX_TOTAL_BUNDLE_BYTES
          then (p, Err(RelayFull))
      else
        var b := HostedBundle(u.ciphertext, u.stampAt, Clamp(u.expiresAtMs, u.stampAt));
        (p.(bundles := p.bundles[u.id := b]), Ok(b.expiresAtMs))
  }

  function FetchSpec(h: Hosted, id: string, pruneAt: nat, now: nat): (Hosted, Option<Fetched>) {
    var p := PruneSpec(h, pruneAt);
    (p, if id in p.bundles && p.bundles[id].expiresAtMs > now
        then Some(Fetched(p.bundles[id].ciphertext, p.bundles[id].expiresAtMs)) else None)
  }

  // ---------------------------------------------------------------- what a client can rely on

  datatype Op = Put(u: Upload) | Look(id: string, pruneAt: nat, now: nat)

  function Ends(op: Op): nat {
    if op.Put? then op.u.stampAt else op.now
  }

  /** The clock does not go back, within an operation or between operations. */
  predicate Ordered(clock: nat, ops: seq<Op>)
    decreases |ops|
  {
    ops != [] ==>
      && (match ops[0]
          case Put(u) => clock <= u.pruneAt <= u.lookAt <= u.stampAt
          case Look(_, p, n) => clock <= p <= n)
      && Ordered(Ends(ops[0]), ops[1..])
  }

  ghost function Do(h: Hosted, op: Op): Hosted {
    match op
    case Put(u) => UploadSpec(h, u).0
    case Look(id, p, n) => FetchSpec(h, id, p, n).0
  }

  ghost function Run(h: Hosted, ops: seq<Op>): Hosted
    decreases |ops|
  {
    if ops == [] then h else Run(Do(h, ops[0]), ops[1..])
  }

  function EndOf(clock: nat, ops: seq<Op>): nat {
    if ops == [] then clock else Ends(ops[|ops| - 1])
  }

  lemma LiveKept(h: Hosted, op: Op, clock: nat, id: string)
    requires Ordered(clock, [op]) && id in h.bundles && h.bundles[id].expiresAtMs > Ends(op)
    ensures id in Do(h, op).bundles && Do(h, op).bundles[id] == h.bundles[id]
  {
  }

  lemma {:induction false} ClockRuns(clock: nat, ops: seq<Op>)
    requires Ordered(clock, ops)
    ensures clock <= EndOf(clock, ops)
    decreases |ops|
  {
    if ops != [] {
      ClockRuns(Ends(ops[0]), ops[1..]);
      assert EndOf(clock, ops) == EndOf(Ends(ops[0]), ops[1..]);
    }
  }

  /** A bundle that has not expired by the end of a run is at the end what it was at the start. */
  lemma {:induction false} LiveStays(h: Hosted, ops: seq<Op>, clock: nat, id: string)
    requires Ordered(clock, ops) && id in h.bundles && h.bundles[id].expiresAtMs > EndOf(clock, ops)
    ensures id in Run(h, ops).bundles && Run(h, ops).bundles[id] == h.bundles[id]
    decreases |ops|
  {
    if ops != [] {
      ClockRuns(Ends(ops[0]), ops[1..]);
      assert EndOf(clock, ops) == EndOf(Ends(ops[0]), ops[1..]);
      LiveKept(h, ops[0], clock, id);
      LiveStays(Do(h, ops[0]), ops[1..], Ends(ops[0]), id);
    }
  }

  /** An accepted upload is fetched unchanged until the moment it was told, whatever else is uploaded,
      fetched or pruned in between. */
  lemma UploadIsFetched(h: Hosted, u: Upload, ops: seq<Op>, pruneAt: nat, now: nat)
    requires u.pruneAt <= u.lookAt <= u.stampAt && Ordered(u.stampAt, ops) && EndOf(u.stampAt, ops) <= pruneAt <= now
    requires UploadSpec(h, u).1.Ok?
    ensures var e := UploadSpec(h, u).1.value;
            now < e ==> FetchSpec(Run(UploadSpec(h, u).0, ops), u.id, pruneAt, now).1 == Some(Fetched(u.ciphertext, e))
  {
    var e := UploadSpec(h, u).1.value;
    if now < e {
      LiveStays(UploadSpec(h, u).0, ops, u.stampAt, u.id);
      hide Run, Ordered;
    }
  }

  /** What was fetched came with an upload of the run that had its proof of work and was accepted. */
  ghost predicate CameWith(h: Hosted, ops: seq<Op>, id: string, f: Fetched)
    decreases |ops|
  {
    ops != [] && (
      || (&& ops[0].Put? && ops[0].u.id == id && ops[0].u.ciphertext == f.ciphertext && ops[0].u.powOk
          && UploadSpec(h, ops[0].u).1 == Ok(f.expiresAtMs))
      || CameWith(Do(h, ops[0]), ops[1..], id, f))
  }

  lemma {:induction false} HeldHasSource(h: Hosted, ops: seq<Op>, id: string)
    requires id in Run(h, ops).bundles
    ensures var b := Run(h, ops).bundles[id];
            (id in h.bundles && h.bundles[id] == b) || CameWith(h, ops, id, Fetched(b.ciphertext, b.expiresAtMs))
    decreases |ops|
  {
    if ops != [] {
      HeldHasSource(Do(h, ops[0]), ops[1..], id);
    }
  }

  /** A fetch never returns what has expired, nor anything but an accepted upload of that very id. */
  lemma FetchIsGenuine(h: Hosted, ops: seq<Op>, id: string, pruneAt: nat, now: nat)
    requires h.bundles == map[] && FetchSpec(Run(h, ops), id, pruneAt, now).1.Some?
    ensures var f := FetchSpec(Run(h, ops), id, pruneAt, now).1.value;
            now < f.expiresAtMs && CameWith(h, ops, id, f)
  {
    HeldHasSource(h, ops, id);
    hide Run, CameWith;
  }

  /** When the scan runs makes no difference to what a fetch returns. */
  lemma PruningIsInvisible(bundles: map<string, HostedBundle>, last: nat, last': nat, id: string, pruneAt: nat,
                           now: nat)
    requires pruneAt <= now
    ensures FetchSpec(Hosted(bundles, last), id, pruneAt, now).1
            == FetchSpec(Hosted(Unexpired(bundles, pruneAt), last'), id, pruneAt, now).1
  {
  }

  // ---------------------------------------------------------------- what an upload is answered

  /** The bundle of this id that an upload finds in its way. */
  ghost predicate InTheWay(h: Hosted, u: Upload) {
    var hosted := PruneSpec(h, u.pruneAt).bundles;
    u.id in hosted && u.lookAt < hosted[u.id].expiresAtMs
  }

  /** A scan that is due, half a minute after the last one or as the first one, leaves exactly the bundles that
      have not expired; otherwise it leaves all of them. */
  lemma PruneLeaves(h: Hosted, now: nat, id: string)
    ensures var h' := PruneSpec(h, now);
            && (id in h'.bundles <==> id in h.bundles
                                      && (h.lastPrune == 0 || h.lastPrune + 30_000 <= now ==>
                                            now < h.bundles[id].expiresAtMs))
            && (id in h'.bundles ==> h'.bundles[id] == h.bundles[id])
  {
  }

  /** Exactly when an upload is accepted: it is proved, valid and at most 16 KiB, and either the very bundle is
      hosted already or there is room among 50 000 bundles and 64 MiB once the expired ones are pruned. */
  lemma AcceptedExactlyWhen(h: Hosted, u: Upload)
    ensures var hosted := PruneSpec(h, u.pruneAt).bundles;
            UploadSpec(h, u).1.Ok? <==>
            && u.powOk && ValidBundleId(u.id) && |u.ciphertext| <= 16 * 1024
            && if InTheWay(h, u) then hosted[u.id].ciphertext == u.ciphertext
               else |hosted| + 1 <= 50_000 && TotalBytes(hosted) + |u.ciphertext| <= 64 * 1024 * 1024
  {
  }

  /** An accepted upload is told the expiry of the bundle already there, or the one it asked for as far as that
      lies between a minute and 30 days from now; then it is hosted with that expiry, beside all the others. */
  lemma AcceptedIsHosted(h: Hosted, u: Upload)
    requires UploadSpec(h, u).1.Ok?
    ensures var hosted, h', e := PruneSpec(h, u.pruneAt).bundles, UploadSpec(h, u).0, UploadSpec(h, u).1.value;
            && u.id in h'.bundles && h'.bundles[u.id].ciphertext == u.ciphertext && h'.bundles[u.id].expiresAtMs == e
            && h'.bundles - {u.id} == hosted - {u.id}
            && if InTheWay(h, u) then e == hosted[u.id].expiresAtMs
               else
                 && u.stampAt + 60_000 <= e <= u.stampAt + 30 * 24 * 60 * 60 * 1000
                 && (e < u.expiresAtMs ==> e == u.stampAt + 30 * 24 * 60 * 60 * 1000)
                 && (e > u.expiresAtMs ==> e == u.stampAt + 60_000)
  {
    hide ValidBundleId, TotalBytes, Unexpired;
  }

  /** A refused upload changes no bundle, but for the scan that precedes it, and is told why: what is malformed
      or unproved does not even get to the scan, a bundle in the way stays, and only then the caps count. */
  lemma RefusedAndWhy(h: Hosted, u: Upload)
    requires UploadSpec(h, u).1.Err?
    ensures var (h', r) := UploadSpec(h, u);
            if !ValidBundleId(u.id) || 16 * 1024 < |u.ciphertext| then h' == h && r.error == BadBundle
            else if !u.powOk then h' == h && r.error == BadPow
            else h' == PruneSpec(h, u.pruneAt) && r.error == if InTheWay(h, u) then BundleExists else RelayFull
  {
  }

  // ---------------------------------------------------------------- the caps

  ghost predicate WithinCaps(bundles: map<string, HostedBundle>) {
    && |bundles| <= MAX_BUNDLES && TotalBytes(bundles) <= MAX_TOTAL_BUNDLE_BYTES
    && (forall id :: id in bundles ==> ValidBundleId(id) && Size(bundles[id]) <= MAX_BUNDLE_BYTES)
  }

  lemma UnexpiredWithinCaps(bundles: map<string, HostedBundle>, now: nat)
    requires WithinCaps(bundles)
    ensures WithinCaps(Unexpired(bundles, now))
  {
    var kept := Unexpired(bundles, now);
    SumMonotone(kept, bundles, Size);
    assert kept.Keys <= bundles.Keys;
    FewerKeys(kept.Keys, bundles.Keys);
    hide ValidBundleId, Sum;
  }

  lemma FewerKeys(small: set<string>, large: set<string>)
    requires small <= large
    ensures |small| <= |large|
  {
    if small != large {
      assert large == small + (large - small);
    }
  }

  /** Count and bytes stay within their caps, also when an upload takes the place of an expired bundle. */
  lemma UploadWithinCaps(h: Hosted, u: Upload)
    requires WithinCaps(h.bundles)
    ensures WithinCaps(UploadSpec(h, u).0.bundles)
  {
    hide ValidBundleId, Sum;
    UnexpiredWithinCaps(h.bundles, u.pruneAt);
    var p := PruneSpec(h, u.pruneAt);
    var b := HostedBundle(u.ciphertext, u.stampAt, Clamp(u.expiresAtMs, u.stampAt));
    SumUpdate(p.bundles, Size, u.id, b);
    hide Unexpired, Clamp;
  }

  // ---------------------------------------------------------------- the store

  method FindExpired(bundles: map<string, HostedBundle>, now: nat) returns (expired: set<string>)
    ensures expired == bundles.Keys - Unexpired(bundles, now).Keys
  {
    var pending := bundles.Keys;
    expired := {};
    while pending != {}
      invariant pending <= bundles.Keys
      invariant forall id :: id in expired <==> id in bundles && id !in pending && bundles[id].expiresAtMs <= now
    {
      var id :| id in pending;
      if bundles[id].expiresAtMs <= now { expired := expired + {id}; }
      pending := pending - {id};
    }
  }

  /** Delete the given bundles one by one, adding up what they held. */
  method RemoveAll(all: map<string, HostedBundle>, expired: set<string>)
    returns (bundles: map<string, HostedBundle>, freed: nat)
    requires expired <= all.Keys
    ensures bundles == all - expired && freed + TotalBytes(bundles) == TotalBytes(all)
  {
    var pending := expired;
    bundles, freed := all, 0;
    MinusNothing(all);
    AllMinusNothing(expired);
    while pending != {}
      invariant pending <= expired && bundles == all - (expired - pending)
      invariant freed + TotalBytes(bundles) == TotalBytes(all)
    {
      var id :| id in pending;
      SumRemove(bundles, Size, id);
      DropNext(all, expired, pending, id);
      freed := freed + |bundles[id].ciphertext|;
      bundles, pending := bundles - {id}, pending - {id};
    }
  }

  /** Whatever changed has been marked for the write-back. */
  ghost predicate Marked(before: map<string, HostedBundle>, after: map<string, HostedBundle>, dirty: set<string>) {
    forall id :: Get(before, id) != Get(after, id) ==> id in dirty
  }

  lemma PruneMarks(bundles: map<string, HostedBundle>, now: nat, expired: set<string>, dirty: set<string>)
    requires expired == bundles.Keys - Unexpired(bundles, now).Keys
    ensures bundles - expired == Unexpired(bundles, now)
    ensures Marked(bundles, Unexpired(bundles, now), dirty + expired)
  {
  }

  lemma NothingMarked(bundles: map<string, HostedBundle>, dirty: set<string>)
    ensures Marked(bundles, bundles, dirty)
  {
  }

  lemma UploadMarks(before: map<string, HostedBundle>, bundles: map<string, HostedBundle>, id: string,
                    b: HostedBundle, dirty: set<string>)
    requires Marked(before, bundles, dirty)
    ensures Marked(before, bundles[id := b], dirty + {id})
  {
  }

  class BundleStore {
    var bundles: map<string, HostedBundle>
    var totalBytes: nat
    var lastPrune: nat
    var dirty: set<string>

    /** The running total is exact and the caps hold. */
    ghost predicate Valid()
      reads this
    {
      totalBytes == TotalBytes(bundles) && WithinCaps(bundles)
    }

    ghost function Abs(): Hosted
      reads this
    {
      Hosted(bundles, lastPrune)
    }

    constructor ()
      ensures Valid() && Abs() == Hosted(map[], 0) && dirty == {}
    {
      bundles, totalBytes, lastPrune, dirty := map[], 0, 0, {};
    }

    method Prune(now: nat)
      requires Valid()
      modifies this
      ensures Valid() && Abs() == PruneSpec(old(Abs()), now)
      ensures old(dirty) <= dirty && Marked(old(bundles), bundles, dirty)
    {
      NothingMarked(bundles, dirty);
      if SatSub(now, lastPrune) < BUNDLE_PRUNE_MIN_INTERVAL_MS && lastPrune != 0 { return; }
      hide WithinCaps, Unexpired, Sum, Marked;
      lastPrune := now;
      UnexpiredWithinCaps(bundles, now);
      var expired := FindExpired(bundles, now);
      PruneMarks(bundles, now, expired, dirty);
      var freed;
      bundles, freed := RemoveAll(bundles, expired);
      dirty := dirty + expired;
      totalBytes := SatSub(totalBytes, freed);
    }

    method Put(u: Upload) returns (r: Result<nat, UploadError>)
      requires Valid()
      modifies this
      ensures Valid() && (Abs(), r) == UploadSpec(old(Abs()), u)
      ensures old(dirty) <= dirty && Marked(old(bundles), bundles, dirty)
    {
      hide WithinCaps, Sum, ValidBundleId, PruneSpec, Marked;
      UploadWithinCaps(Abs(), u);
      NothingMarked(bundles, dirty);
      if !ValidBundleId(u.id) || |u.ciphertext| > MAX_BUNDLE_BYTES { return Err(BadBundle); }
      if !u.powOk { return Err(BadPow); }
      Prune(u.pruneAt);
      if u.id in bundles && bundles[u.id].expiresAtMs > u.lookAt {
        return if bundles[u.id].ciphertext == u.ciphertext then Ok(bundles[u.id].expiresAtMs) else Err(BundleExists);
      }
      if |bundles| >= MAX_BUNDLES { return Err(RelayFull); }
      if totalBytes + |u.ciphertext| > MAX_TOTAL_BUNDLE_BYTES { return Err(RelayFull); }
      var expires := Max(Min(u.expiresAtMs, u.stampAt + MAX_BUNDLE_TTL_MS), u.stampAt + MIN_BUNDLE_TTL_MS);
      var bundle := HostedBundle(u.ciphertext, u.stampAt, expires);
      SumUpdate(bundles, Size, u.id, bundle);
      UploadMarks(old(bundles), bundles, u.id, bundle, dirty);
      if u.id in bundles {
        totalBytes := SatSub(totalBytes, |bundles[u.id].ciphertext|);
      }
      bundles := bundles[u.id := bundle];
      totalBytes := totalBytes + |u.ciphertext|;
      dirty := dirty + {u.id};
      r := Ok(expires);
    }

    method Fetch(id: string, pruneAt: nat, now: nat) returns (r: Option<Fetched>)
      requires Valid()
      modifies this
      ensures Valid() && (Abs(), r) == FetchSpec(old(Abs()), id, pruneAt, now)
      ensures old(dirty) <= dirty && Marked(old(bundles), bundles, dirty)
    {
      Prune(pruneAt);
      if id in bundles && bundles[id].expiresAtMs > now {
        return Some(Fetched(bundles[id].ciphertext, bundles[id].expiresAtMs));
      }
      r := None;
    }
  }
}
