/** Mailbox registration and its garbage collection: any number of connections, retirements and sweeps,
    one atomic step at a time. */
module Mailboxes {
  import opened Tables

  const DAY_MS: nat := 24 * 60 * 60 * 1000
  const MAILBOX_IDLE_TTL_MS: nat := 30 * DAY_MS
  const MAX_MAILBOXES: nat := 50_000

  /** The clock rounded down to the day. */
  function DayFloor(ms: nat): (d: nat)
    ensures d <= ms < d + DAY_MS
  {
    ms - ms % DAY_MS
  }

  /** `auth` gives the activity time of every registered mailbox and `locked` the map entries held by a
      registration in progress.  For the record only: `refreshed`, when a Hello or an authorised send last
      came; `arrived` and `left`, how many envelopes were ever queued for a mailbox and how many of them
      are gone; `stalled`, how many arrived by a send that had stalled; `registered`, how often a Hello put
      a mailbox into the map. */
  datatype Shared = Shared(now: nat, auth: map<string, nat>, locked: set<string>, count: nat,
                           online: set<string>, queued: map<string, nat>,
                           refreshed: map<string, nat>, arrived: map<string, nat>, left: map<string, nat>,
                           stalled: map<string, nat>, registered: map<string, nat>)

  /** What the record says of a mailbox at some moment. */
  datatype Mark = Mark(arrived: nat, left: nat, stalled: nat, registered: nat)

  /** A mailbox a sweep has found idle, with the mark of that look. */
  datatype Found = Found(m: string, look: Mark)

  /** A send stalls when 29 days pass between its authorisation and its enqueue. */
  const STALL_MS: nat := 29 * DAY_MS

  datatype Pc =
    | Idle
    | Reserved(m: string)
    | Authorised(m: string, at: nat)
    | RetireCount(m: string)
    | RetirePurge(m: string)
    | GcLooking(started: nat, candidates: seq<string>)
    | GcChecking(started: nat, candidates: seq<string>, stale: seq<Found>)
    | GcRemoving(started: nat, stale: seq<Found>)
    | GcCount(m: string, started: nat, stale: seq<Found>, look: Mark, mark: Mark)
    | GcPurge(m: string, started: nat, stale: seq<Found>, look: Mark, mark: Mark)

  datatype State = State(shared: Shared, threads: map<nat, Pc>)

  /** Requests begin something in an idle thread; `Candidate` and `Looked` belong to a sweep looking at
      the map; `Move` is the next step of whatever is going on. */
  datatype Request =
    | Hello(m: string, ok: bool)
    | Send(m: string, ok: bool)
    | Retire(m: string)
    | Collect
    | Candidate(m: string)
    | Looked
    | Move(ok: bool)

  /** `Drain`: envelopes are acked, evicted or expired. */
  datatype Action =
    | Tick(ms: nat)
    | Online(m: string)
    | Offline(m: string)
    | Drain(m: string, n: nat)
    | Do(t: nat, request: Request)

  // ---------------------------------------------------------------- the steps

  datatype Moved = To(shared: Shared, pc: Pc)

  function Count(m: map<string, nat>, k: string): nat {
    if k in m then m[k] else 0
  }

  function Refresh(s: Shared, m: string): Shared {
    s.(auth := s.auth[m := DayFloor(s.now)], refreshed := s.refreshed[m := s.now])
  }

  /** Past its lease at a sweep that read the clock at `started`. */
  predicate Lapsed(s: Shared, m: string, started: nat) {
    m in s.auth && SatSub(started, s.auth[m]) > MAILBOX_IDLE_TTL_MS
  }

  /** A known mailbox needs its token, a new one a proof of work and a slot, reserved under the entry lock. */
  function SayHello(s: Shared, m: string, ok: bool): Moved {
    if m in s.locked || !ok then To(s, Idle)
    else if m in s.auth then To(Refresh(s, m), Idle)
    else if s.count >= MAX_MAILBOXES then To(s, Idle)
    else To(s.(count := s.count + 1, locked := s.locked + {m}), Reserved(m))
  }

  function Authorise(s: Shared, m: string, ok: bool): Moved {
    if m in s.locked || m !in s.auth || !ok then To(s, Idle) else To(Refresh(s, m), Authorised(m, s.now))
  }

  function Remove(s: Shared, m: string): Moved {
    if m in s.locked then To(s, Idle)
    else if m in s.auth then To(s.(auth := s.auth - {m}), RetireCount(m))
    else To(s, RetirePurge(m))
  }

  function Queue(s: Shared, m: string, at: nat): Shared {
    s.(queued := s.queued[m := Count(s.queued, m) + 1], arrived := s.arrived[m := Count(s.arrived, m) + 1],
       stalled := if s.now > at + STALL_MS then s.stalled[m := Count(s.stalled, m) + 1] else s.stalled)
  }

  function MarkOf(s: Shared, m: string): Mark {
    Mark(Count(s.arrived, m), Count(s.left, m), Count(s.stalled, m), Count(s.registered, m))
  }

  /** Acks, evictions, expiry and purges: up to `n` envelopes are gone. */
  function Lose(s: Shared, m: string, n: nat): Shared {
    var gone := Min(n, Count(s.queued, m));
    s.(queued := s.queued[m := Count(s.queued, m) - gone], left := s.left[m := Count(s.left, m) + gone])
  }

  function Purge(s: Shared, m: string): Shared {
    Lose(s, m, Count(s.queued, m))
  }

  function Insert(s: Shared, m: string): Shared {
    Refresh(s, m).(locked := s.locked - {m}, registered := s.registered[m := Count(s.registered, m) + 1])
  }

  /** The sweep looks again under the entry lock, and removes what is still idle and offline. */
  function RemoveIf(s: Shared, started: nat, stale: seq<Found>): Moved
    requires stale != []
  {
    var m := stale[0].m;
    if m in s.locked then To(s, GcRemoving(started, stale))
    else if Lapsed(s, m, started) && m !in s.online then
      To(s.(auth := s.auth - {m}), GcCount(m, started, stale[1..], stale[0].look, MarkOf(s, m)))
    else To(s, GcRemoving(started, stale[1..]))
  }

  function Step(s: Shared, pc: Pc, ok: bool): Moved {
    match pc
    case Idle => To(s, Idle)
    case Reserved(m) => To(Insert(s, m), Idle)
    case Authorised(m, at) => To(if ok then Queue(s, m, at) else s, Idle)
    case RetireCount(m) => To(s.(count := WrapSub(s.count, 1)), RetirePurge(m))
    case RetirePurge(m) => To(Purge(s, m), Idle)
    case GcLooking(_, _) => To(s, pc)
    case GcChecking(started, candidates, stale) =>
      if candidates == [] then To(s, GcRemoving(started, stale))
      else if Count(s.queued, candidates[0]) == 0 && candidates[0] !in s.online then
        To(s, GcChecking(started, candidates[1..], stale + [Found(candidates[0], MarkOf(s, candidates[0]))]))
      else To(s, GcChecking(started, candidates[1..], stale))
    case GcRemoving(started, stale) => if stale == [] then To(s, Idle) else RemoveIf(s, started, stale)
    case GcCount(m, started, stale, look, mark) =>
      To(s.(count := WrapSub(s.count, 1)), GcPurge(m, started, stale, look, mark))
    case GcPurge(m, started, stale, _, _) => To(Purge(s, m), GcRemoving(started, stale))
  }

  function Act(s: Shared, pc: Pc, r: Request): Moved {
    match r
    case Hello(m, ok) => if !pc.Idle? then To(s, pc) else SayHello(s, m, ok)
    case Send(m, ok) => if !pc.Idle? then To(s, pc) else Authorise(s, m, ok)
    case Retire(m) => if !pc.Idle? then To(s, pc) else Remove(s, m)
    case Collect => if !pc.Idle? then To(s, pc) else To(s, GcLooking(s.now, []))
    case Candidate(m) =>
      if pc.GcLooking? && Lapsed(s, m, pc.started) then To(s, GcLooking(pc.started, pc.candidates + [m])) else To(s, pc)
    case Looked => if pc.GcLooking? then To(s, GcChecking(pc.started, pc.candidates, [])) else To(s, pc)
    case Move(ok) => Step(s, pc, ok)
  }

  function PcOf(s: State, t: nat): Pc {
    if t in s.threads then s.threads[t] else Idle
  }

  function Next(s: State, a: Action): State {
    match a
    case Tick(ms) => s.(shared := s.shared.(now := s.shared.now + ms))
    case Online(m) => s.(shared := s.shared.(online := s.shared.online + {m}))
    case Offline(m) => s.(shared := s.shared.(online := s.shared.online - {m}))
    case Drain(m, n) => s.(shared := Lose(s.shared, m, n))
    case Do(t, r) => var moved := Act(s.shared, PcOf(s, t), r); State(moved.shared, s.threads[t := moved.pc])
  }

  function Run(s: State, run: seq<Action>): State
    decreases |run|
  {
    if run == [] then s else Run(Next(s, run[0]), run[1..])
  }

  // ---------------------------------------------------------------- the slots

  function HeldSlots(pc: Pc): nat {
    if pc.Reserved? || pc.RetireCount? || pc.GcCount? then 1 else 0
  }

  predicate Holds(s: Shared, pc: Pc) {
    pc.Reserved? ==> pc.m in s.locked && pc.m !in s.auth
  }

  /** A registration in progress has its map entry to itself. */
  ghost predicate Entries(s: Shared, threads: map<nat, Pc>) {
    && (forall t :: t in threads ==> Holds(s, threads[t]))
    && (forall t, o :: t in threads && o in threads && t != o && threads[t].Reserved? && threads[o].Reserved? ==>
          threads[t].m != threads[o].m)
  }

  ghost predicate SlotLedger(s: Shared, threads: map<nat, Pc>) {
    s.count == |s.auth| + Sum(threads, HeldSlots)
  }

  lemma EntryAct(s: Shared, pc: Pc, r: Request)
    requires Holds(s, pc)
    ensures var moved := Act(s, pc, r); Holds(moved.shared, moved.pc)
  {
  }

  /** What another thread does to an entry this one has locked: nothing. */
  lemma EntryOthers(s: Shared, pc: Pc, r: Request, m: string)
    requires m in s.locked && m !in s.auth && pc != Reserved(m)
    ensures var moved := Act(s, pc, r); m in moved.shared.locked && m !in moved.shared.auth && moved.pc != Reserved(m)
  {
  }

  lemma EntriesPut(s: Shared, threads: map<nat, Pc>, t: nat, pc: Pc, r: Request)
    requires Entries(s, threads) && pc == PcOf(State(s, threads), t)
    ensures var moved := Act(s, pc, r); Entries(moved.shared, threads[t := moved.pc])
  {
    var moved := Act(s, pc, r);
    EntryAct(s, pc, r);
    forall o | o in threads && o != t && threads[o].Reserved?
      ensures Holds(moved.shared, threads[o]) && moved.pc != Reserved(threads[o].m)
    {
      EntryOthers(s, pc, r, threads[o].m);
    }
    hide Act;
  }

  predicate SlotsMoved(s: Shared, pc: Pc, moved: Moved) {
    moved.shared.count - |moved.shared.auth| - HeldSlots(moved.pc) == s.count - |s.auth| - HeldSlots(pc)
  }

  lemma HelloSlots(s: Shared, m: string, ok: bool)
    ensures SlotsMoved(s, Idle, SayHello(s, m, ok))
  {
    hide DayFloor;
    PutSize(s.auth, m, DayFloor(s.now));
  }

  lemma SendSlots(s: Shared, m: string, ok: bool)
    ensures SlotsMoved(s, Idle, Authorise(s, m, ok))
  {
    hide DayFloor;
    PutSize(s.auth, m, DayFloor(s.now));
  }

  lemma RetireSlots(s: Shared, m: string)
    ensures SlotsMoved(s, Idle, Remove(s, m))
  {
    DropSize(s.auth, m);
  }

  lemma InsertSlots(s: Shared, m: string)
    requires m !in s.auth
    ensures SlotsMoved(s, Reserved(m), To(Insert(s, m), Idle))
  {
    hide DayFloor;
    PutSize(s.auth, m, DayFloor(s.now));
  }

  lemma LapsedKnown(s: Shared, m: string, started: nat)
    ensures Lapsed(s, m, started) ==> m in s.auth
  {
  }

  lemma RemoveIfSlots(s: Shared, started: nat, stale: seq<Found>)
    requires stale != []
    ensures SlotsMoved(s, GcRemoving(started, stale), RemoveIf(s, started, stale))
  {
    hide Lapsed, Count;
    if !Lapsed(s, stale[0].m, started) { OtherSlots(s, GcRemoving(started, stale), RemoveIf(s, started, stale)); }
    LapsedKnown(s, stale[0].m, started);
    DropSize(s.auth, stale[0].m);
  }

  /** The entries are left alone. */
  lemma OtherSlots(s: Shared, pc: Pc, moved: Moved)
    requires moved.shared.auth == s.auth
    requires moved.shared.count - HeldSlots(moved.pc) == s.count - HeldSlots(pc)
    ensures SlotsMoved(s, pc, moved)
  {
  }

  lemma RequestSlots(s: Shared, pc: Pc, r: Request)
    requires pc.Idle? && !r.Move?
    ensures SlotsMoved(s, pc, Act(s, pc, r))
  {
    hide SayHello, Authorise, Remove, Step, Lapsed, SlotsMoved;
    match r
    case Hello(m, ok) => HelloSlots(s, m, ok);
    case Send(m, ok) => SendSlots(s, m, ok);
    case Retire(m) => RetireSlots(s, m);
    case _ => OtherSlots(s, pc, Act(s, pc, r));
  }

  lemma StepSlots(s: Shared, pc: Pc, ok: bool)
    requires Holds(s, pc) && s.count >= HeldSlots(pc)
    ensures SlotsMoved(s, pc, Step(s, pc, ok))
  {
    hide SlotsMoved, RemoveIf, Refresh;
    if pc.Reserved? {
      InsertSlots(s, pc.m);
    } else if pc.GcRemoving? && pc.stale != [] {
      RemoveIfSlots(s, pc.started, pc.stale);
    } else {
      OtherSlots(s, pc, Step(s, pc, ok));
    }
  }

  lemma SlotsAct(s: Shared, pc: Pc, r: Request)
    requires Holds(s, pc) && s.count >= HeldSlots(pc)
    ensures SlotsMoved(s, pc, Act(s, pc, r))
    ensures Act(s, pc, r).shared.count <= Max(s.count, MAX_MAILBOXES)
  {
    hide SlotsMoved;
    if r.Move? {
      StepSlots(s, pc, r.ok);
    } else if pc.Idle? {
      RequestSlots(s, pc, r);
    } else {
      OtherSlots(s, pc, Act(s, pc, r));
    }
  }

  lemma PutSize(auth: map<string, nat>, m: string, v: nat)
    ensures |auth[m := v]| == |auth| + if m in auth then 0 else 1
  {
    assert auth[m := v].Keys == auth.Keys + {m};
  }

  lemma DropSize(auth: map<string, nat>, m: string)
    ensures |auth - {m}| == |auth| - if m in auth then 1 else 0
  {
    assert (auth - {m}).Keys == auth.Keys - {m};
  }

  // ---------------------------------------------------------------- the leases

  /** A recorded refresh is no later than the lease the day rounding left of it. */
  ghost predicate Leased(s: Shared, m: string) {
    m in s.auth ==> m in s.refreshed && s.refreshed[m] <= s.now && s.refreshed[m] < s.auth[m] + DAY_MS
  }

  /** A mailbox was empty when a sweep looked, and for as long as its lease stays lapsed only stalled sends
      bring it mail. */
  predicate LookHolds(s: Shared, started: nat, m: string, look: Mark) {
    && look.arrived == look.left <= Count(s.left, m) && look.stalled <= Count(s.stalled, m)
    && (Lapsed(s, m, started) && Count(s.stalled, m) == look.stalled ==> Count(s.queued, m) == 0)
  }

  predicate LooksHold(s: Shared, started: nat, stale: seq<Found>, m: string) {
    forall f :: f in stale && f.m == m ==> LookHolds(s, started, m, f.look)
  }

  /** A removed mailbox is empty until it is registered anew, as long as no stalled send has brought it
      mail since the look. */
  predicate EmptyUntilBack(s: Shared, m: string, look: Mark, mark: Mark) {
    && mark.left <= Count(s.left, m) && mark.registered <= Count(s.registered, m)
    && look.stalled <= Count(s.stalled, m)
    && (Count(s.registered, m) == mark.registered ==> m !in s.auth)
    && (Count(s.stalled, m) == look.stalled ==>
          && mark.arrived == mark.left
          && (Count(s.registered, m) == mark.registered ==> Count(s.queued, m) == 0))
  }

  /** What a request remembers of a mailbox; an authorised send was covered by a lease. */
  predicate Knows(s: Shared, pc: Pc, m: string) {
    match pc
    case Authorised(x, at) => x == m ==> at <= s.now && (m in s.auth ==> at < s.auth[m] + DAY_MS)
    case GcLooking(started, _) => started <= s.now
    case GcChecking(started, _, stale) => started <= s.now && LooksHold(s, started, stale, m)
    case GcRemoving(started, stale) => started <= s.now && LooksHold(s, started, stale, m)
    case GcCount(x, started, stale, look, mark) =>
      started <= s.now && LooksHold(s, started, stale, m) && (x == m ==> EmptyUntilBack(s, m, look, mark))
    case GcPurge(x, started, stale, look, mark) =>
      started <= s.now && LooksHold(s, started, stale, m) && (x == m ==> EmptyUntilBack(s, m, look, mark))
    case _ => true
  }

  /** A send still under way when a sweep has removed its mailbox is one that stalls, unless the mailbox
      has been registered anew. */
  predicate Apart(s: Shared, sweep: Pc, send: Pc, m: string) {
    (sweep.GcCount? || sweep.GcPurge?) && sweep.m == m && send.Authorised? && send.m == m ==>
      Count(s.registered, m) == sweep.mark.registered ==> send.at + STALL_MS < sweep.started
  }

  /** Every envelope that arrived is queued or gone. */
  predicate Balanced(s: Shared, m: string) {
    Count(s.queued, m) + Count(s.left, m) == Count(s.arrived, m)
  }

  lemma LeaseAct(s: Shared, pc: Pc, r: Request, m: string)
    requires Leased(s, m)
    ensures Leased(Act(s, pc, r).shared, m)
  {
    hide Lapsed, DayFloor;
  }

  /** What a sweep has found stays true while it works through the list. */
  lemma LooksShorten(s: Shared, started: nat, stale: seq<Found>, m: string)
    requires stale != []
    ensures LooksHold(s, started, stale, m) ==>
              LooksHold(s, started, stale[1..], m) && (stale[0].m == m ==> LookHolds(s, started, m, stale[0].look))
  {
    if LooksHold(s, started, stale, m) {
      assert stale[0] in stale;
      forall f | f in stale[1..] && f.m == m ensures LookHolds(s, started, m, f.look) { assert f in stale; }
    }
  }

  lemma LooksLengthen(s: Shared, started: nat, stale: seq<Found>, f: Found, m: string)
    requires LooksHold(s, started, stale, m) && (f.m == m ==> LookHolds(s, started, m, f.look))
    ensures LooksHold(s, started, stale + [f], m)
  {
  }

  lemma NoLooks(s: Shared, started: nat, m: string)
    ensures LooksHold(s, started, [], m)
  {
  }

  /** Only the record, the leases and the queue decide whether a look still holds. */
  lemma LooksMove(s: Shared, s': Shared, started: nat, stale: seq<Found>, m: string)
    requires LooksHold(s, started, stale, m)
    requires Count(s.left, m) <= Count(s'.left, m) && Count(s.stalled, m) <= Count(s'.stalled, m)
    requires Lapsed(s', m, started) && Count(s'.queued, m) > 0 ==>
               (Lapsed(s, m, started) && Count(s.queued, m) > 0) || Count(s.stalled, m) < Count(s'.stalled, m)
    ensures LooksHold(s', started, stale, m)
  {
  }

  lemma RemoveIfKnows(s: Shared, started: nat, stale: seq<Found>, m: string)
    requires stale != [] && Knows(s, GcRemoving(started, stale), m) && Balanced(s, m)
    ensures var moved := RemoveIf(s, started, stale); Knows(moved.shared, moved.pc, m)
  {
    LooksShorten(s, started, stale, m);
    hide LooksHold;
    LooksMove(s, RemoveIf(s, started, stale).shared, started, stale[1..], m);
  }

  lemma CheckKnows(s: Shared, started: nat, candidates: seq<string>, stale: seq<Found>, m: string)
    requires candidates != [] && Knows(s, GcChecking(started, candidates, stale), m) && Balanced(s, m)
    ensures var moved := Step(s, GcChecking(started, candidates, stale), true); Knows(moved.shared, moved.pc, m)
  {
    hide LooksHold;
    var f := Found(candidates[0], MarkOf(s, candidates[0]));
    if Count(s.queued, candidates[0]) == 0 { LooksLengthen(s, started, stale, f, m); }
  }

  lemma PurgeKnows(s: Shared, pc: Pc, m: string)
    requires pc.GcPurge? && Knows(s, pc, m)
    ensures Knows(Purge(s, pc.m), GcRemoving(pc.started, pc.stale), m)
  {
    hide LooksHold;
    LooksMove(s, Purge(s, pc.m), pc.started, pc.stale, m);
  }

  lemma CountKnows(s: Shared, pc: Pc, m: string)
    requires pc.GcCount? && Knows(s, pc, m)
    ensures var moved := Step(s, pc, true); Knows(moved.shared, moved.pc, m)
  {
    hide LooksHold;
    LooksMove(s, s.(count := WrapSub(s.count, 1)), pc.started, pc.stale, m);
  }

  lemma KnowsAct(s: Shared, pc: Pc, r: Request, m: string)
    requires Knows(s, pc, m) && Balanced(s, m)
    ensures var moved := Act(s, pc, r); Knows(moved.shared, moved.pc, m)
  {
    hide LooksHold, RemoveIf, Lapsed, Purge;
    if r.Move? {
      if pc.GcRemoving? && pc.stale != [] { RemoveIfKnows(s, pc.started, pc.stale, m); }
      if pc.GcChecking? && pc.candidates != [] { CheckKnows(s, pc.started, pc.candidates, pc.stale, m); }
      if pc.GcPurge? { PurgeKnows(s, pc, m); }
      if pc.GcCount? { CountKnows(s, pc, m); }
    }
    if pc.GcLooking? { NoLooks(s, pc.started, m); }
  }

  predicate MovesMail(pc: Pc, r: Request) {
    r.Move? && (pc.Authorised? || pc.RetirePurge? || pc.GcPurge?)
  }

  predicate SameMail(s: Shared, s': Shared, m: string) {
    && s'.now == s.now && Count(s'.queued, m) == Count(s.queued, m) && Count(s'.arrived, m) == Count(s.arrived, m)
    && Count(s'.left, m) == Count(s.left, m) && Count(s'.stalled, m) == Count(s.stalled, m)
  }

  lemma HelloKeepsMail(s: Shared, m: string, ok: bool, x: string)
    ensures SameMail(s, SayHello(s, m, ok).shared, x)
  {
  }

  lemma SendKeepsMail(s: Shared, m: string, ok: bool, x: string)
    ensures SameMail(s, Authorise(s, m, ok).shared, x)
  {
  }

  lemma RetireKeepsMail(s: Shared, m: string, x: string)
    ensures SameMail(s, Remove(s, m).shared, x)
  {
  }

  lemma RequestKeepsMail(s: Shared, pc: Pc, r: Request, m: string)
    requires !r.Move?
    ensures SameMail(s, Act(s, pc, r).shared, m)
  {
    hide Lapsed, Step, SayHello, Authorise, Remove;
    match r
    case Hello(x, ok) => HelloKeepsMail(s, x, ok, m);
    case Send(x, ok) => SendKeepsMail(s, x, ok, m);
    case Retire(x) => RetireKeepsMail(s, x, m);
    case _ =>
  }

  lemma RemoveIfKeepsMail(s: Shared, started: nat, stale: seq<Found>, m: string)
    requires stale != []
    ensures SameMail(s, RemoveIf(s, started, stale).shared, m)
  {
    hide Lapsed;
  }

  /** All other steps leave the queues and their record alone. */
  lemma MailStays(s: Shared, pc: Pc, r: Request, m: string)
    requires !MovesMail(pc, r)
    ensures SameMail(s, Act(s, pc, r).shared, m)
  {
    if !r.Move? {
      RequestKeepsMail(s, pc, r, m);
      hide Act, SameMail;
    } else if pc.GcRemoving? && pc.stale != [] {
      RemoveIfKeepsMail(s, pc.started, pc.stale, m);
      hide RemoveIf, SameMail;
    } else {
      hide RemoveIf, DayFloor, Purge, Queue;
    }
  }

  lemma BalancedAct(s: Shared, pc: Pc, r: Request, m: string)
    requires Balanced(s, m)
    ensures Balanced(Act(s, pc, r).shared, m)
  {
    if !MovesMail(pc, r) {
      MailStays(s, pc, r, m);
      hide Act;
    } else {
      hide RemoveIf;
    }
  }

  /** A queue grows only by an authorised send, and the record shows when that one had stalled. */
  lemma QueueAct(s: Shared, pc: Pc, r: Request, m: string)
    ensures var s' := Act(s, pc, r).shared;
            && s'.now == s.now && Count(s.left, m) <= Count(s'.left, m) && Count(s.stalled, m) <= Count(s'.stalled, m)
            && (Count(s'.queued, m) > Count(s.queued, m) && Count(s'.stalled, m) == Count(s.stalled, m) ==>
                  pc.Authorised? && pc.m == m && s.now <= pc.at + STALL_MS && s'.auth == s.auth)
  {
    if !MovesMail(pc, r) {
      MailStays(s, pc, r, m);
      hide Act;
    } else {
      hide RemoveIf;
    }
  }

  /** A lease changes only to a fresh one, and a mailbox appears only by a registration. */
  lemma AuthAct(s: Shared, pc: Pc, r: Request, m: string)
    ensures var s' := Act(s, pc, r).shared;
            && (m in s'.auth ==> (m in s.auth && s'.auth[m] == s.auth[m]) || s.now < s'.auth[m] + DAY_MS)
            && Count(s.registered, m) <= Count(s'.registered, m)
            && (m in s'.auth && m !in s.auth ==> Count(s.registered, m) < Count(s'.registered, m))
  {
    hide Lapsed, DayFloor;
  }

  lemma KnowsOthers(s: Shared, pc: Pc, r: Request, other: Pc, m: string)
    requires Knows(s, pc, m) && Knows(s, other, m) && Apart(s, other, pc, m)
    ensures Knows(Act(s, pc, r).shared, other, m)
  {
    hide Act, DayFloor, LooksHold;
    QueueAct(s, pc, r, m);
    AuthAct(s, pc, r, m);
    if other.GcChecking? || other.GcRemoving? || other.GcCount? || other.GcPurge? {
      LooksMove(s, Act(s, pc, r).shared, other.started, other.stale, m);
    }
  }

  /** A sweep that removes a mailbox finds no recent send, and a send is authorised only while the mailbox
      is there. */
  lemma ApartAct(s: Shared, pc: Pc, r: Request, other: Pc, m: string)
    requires Knows(s, pc, m) && Knows(s, other, m) && Apart(s, pc, other, m) && Apart(s, other, pc, m)
    ensures var moved := Act(s, pc, r);
            Apart(moved.shared, moved.pc, other, m) && Apart(moved.shared, other, moved.pc, m)
  {
    hide DayFloor;
  }

  lemma ApartOthers(s: Shared, pc: Pc, r: Request, sweep: Pc, send: Pc, m: string)
    requires Apart(s, sweep, send, m) && Knows(s, sweep, m)
    ensures Apart(Act(s, pc, r).shared, sweep, send, m)
  {
    hide Act;
    AuthAct(s, pc, r, m);
  }

  // ---------------------------------------------------------------- every run, every interleaving

  /** What holds of registrations, whatever the clock does. */
  ghost predicate SlotInv(s: State) {
    Entries(s.shared, s.threads) && SlotLedger(s.shared, s.threads)
  }

  /** What holds of leases, however slow the handlers are. */
  ghost predicate LeaseInv(s: State) {
    forall m :: m in s.shared.auth ==> Leased(s.shared, m)
  }

  ghost predicate AllApart(s: State, m: string) {
    forall t, o :: t in s.threads && o in s.threads ==> Apart(s.shared, s.threads[t], s.threads[o], m)
  }

  ghost predicate MailInv(s: State, m: string) {
    && Balanced(s.shared, m)
    && (forall t :: t in s.threads ==> Knows(s.shared, s.threads[t], m))
    && AllApart(s, m)
  }

  lemma SlotInvKept(s: State, a: Action)
    requires SlotInv(s)
    ensures SlotInv(Next(s, a)) && Next(s, a).shared.count <= Max(s.shared.count, MAX_MAILBOXES)
  {
    if a.Do? {
      var pc := PcOf(s, a.t);
      assert Holds(s.shared, pc);
      var moved := Act(s.shared, pc, a.request);
      SumUpdate(s.threads, HeldSlots, a.t, moved.pc);
      SlotsAct(s.shared, pc, a.request);
      EntriesPut(s.shared, s.threads, a.t, pc, a.request);
      hide Act, Sum, Entries;
    }
  }

  lemma LeaseInvKept(s: State, a: Action)
    requires LeaseInv(s)
    ensures LeaseInv(Next(s, a))
  {
    var s' := Next(s, a);
    if a.Do? {
      forall m | m in s'.shared.auth ensures Leased(s'.shared, m) { LeaseAct(s.shared, PcOf(s, a.t), a.request, m); }
      hide Act;
    }
  }

  lemma ApartPut(s: State, t: nat, r: Request, m: string)
    requires MailInv(s, m)
    ensures AllApart(Next(s, Do(t, r)), m)
  {
    var s', pc := Next(s, Do(t, r)), PcOf(s, t);
    forall o, p | o in s'.threads && p in s'.threads ensures Apart(s'.shared, s'.threads[o], s'.threads[p], m) {
      if o == t && p != t {
        ApartAct(s.shared, pc, r, s.threads[p], m);
      } else if o != t && p == t {
        ApartAct(s.shared, pc, r, s.threads[o], m);
      } else if o != t && p != t {
        ApartOthers(s.shared, pc, r, s.threads[o], s.threads[p], m);
      }
    }
    hide Act;
  }

  lemma MailInvDo(s: State, t: nat, r: Request, m: string)
    requires MailInv(s, m)
    ensures MailInv(Next(s, Do(t, r)), m)
  {
    var s', pc := Next(s, Do(t, r)), PcOf(s, t);
    assert Knows(s.shared, pc, m);
    KnowsAct(s.shared, pc, r, m);
    BalancedAct(s.shared, pc, r, m);
    forall o | o in s.threads && o != t ensures Knows(s'.shared, s.threads[o], m) {
      assert Apart(s.shared, s.threads[o], pc, m);
      KnowsOthers(s.shared, pc, r, s.threads[o], m);
    }
    ApartPut(s, t, r, m);
    hide Act, Knows, Balanced, AllApart;
  }

  /** Time passes, sockets come and go, envelopes leave. */
  predicate Aside(s: Shared, s': Shared, m: string) {
    && s.now <= s'.now && s'.auth == s.auth
    && Count(s'.stalled, m) == Count(s.stalled, m) && Count(s'.registered, m) == Count(s.registered, m)
    && Count(s.left, m) <= Count(s'.left, m) && Count(s'.queued, m) <= Count(s.queued, m)
  }

  lemma KnowsAside(s: Shared, s': Shared, pc: Pc, m: string)
    requires Knows(s, pc, m) && Aside(s, s', m)
    ensures Knows(s', pc, m)
  {
    hide LooksHold;
    if pc.GcChecking? || pc.GcRemoving? || pc.GcCount? || pc.GcPurge? {
      LooksMove(s, s', pc.started, pc.stale, m);
    }
  }

  lemma ActsAside(s: State, a: Action, m: string)
    requires !a.Do? && Balanced(s.shared, m)
    ensures var s' := Next(s, a);
            s'.threads == s.threads && Aside(s.shared, s'.shared, m) && Balanced(s'.shared, m)
  {
  }

  /** They disturb nothing. */
  lemma MailInvAside(s: State, a: Action, m: string)
    requires MailInv(s, m) && !a.Do?
    ensures MailInv(Next(s, a), m)
  {
    var s' := Next(s, a);
    ActsAside(s, a, m);
    forall t | t in s'.threads ensures Knows(s'.shared, s'.threads[t], m) {
      KnowsAside(s.shared, s'.shared, s.threads[t], m);
    }
    forall t, o | t in s'.threads && o in s'.threads ensures Apart(s'.shared, s'.threads[t], s'.threads[o], m) {
      assert Apart(s.shared, s.threads[t], s.threads[o], m);
    }
    hide Next, Knows, Balanced;
  }

  lemma MailInvKept(s: State, a: Action, m: string)
    requires MailInv(s, m)
    ensures MailInv(Next(s, a), m)
  {
    if a.Do? { MailInvDo(s, a.t, a.request, m); } else { MailInvAside(s, a, m); }
    hide MailInv, Next;
  }

  /** A relay just started: nobody at work, as many slots as mailboxes, the leases as loaded, the
      record in balance. */
  ghost predicate Started(s: State) {
    && s.threads == map[] && s.shared.locked == {}
    && s.shared.count == |s.shared.auth|
    && (forall m :: m in s.shared.auth ==> Leased(s.shared, m))
    && (forall m :: Balanced(s.shared, m))
  }

  lemma {:induction false} SlotInvRun(s: State, run: seq<Action>)
    requires SlotInv(s)
    ensures SlotInv(Run(s, run)) && Run(s, run).shared.count <= Max(s.shared.count, MAX_MAILBOXES)
    decreases |run|
  {
    hide SlotInv, Next;
    if run != [] {
      SlotInvKept(s, run[0]);
      SlotInvRun(Next(s, run[0]), run[1..]);
    }
  }

  lemma {:induction false} LeaseInvRun(s: State, run: seq<Action>)
    requires LeaseInv(s)
    ensures LeaseInv(Run(s, run))
    decreases |run|
  {
    hide LeaseInv, Next;
    if run != [] {
      LeaseInvKept(s, run[0]);
      LeaseInvRun(Next(s, run[0]), run[1..]);
    }
  }

  lemma {:induction false} MailInvRun(s: State, run: seq<Action>, m: string)
    requires MailInv(s, m)
    ensures MailInv(Run(s, run), m)
    decreases |run|
  {
    hide MailInv, Next;
    if run != [] {
      MailInvKept(s, run[0], m);
      MailInvRun(Next(s, run[0]), run[1..], m);
    }
  }

  /** The mailbox counter is the registered mailboxes, the slots reserved for registrations under way and
      the slots of removals not yet counted; it stays under the cap, or under where it started, and no
      plain subtraction wraps. */
  lemma SlotsAccounted(s0: State, run: seq<Action>)
    requires Started(s0)
    ensures var s := Run(s0, run);
            && s.shared.count == |s.shared.auth| + Sum(s.threads, HeldSlots)
            && |s.shared.auth| <= s.shared.count <= Max(|s0.shared.auth|, MAX_MAILBOXES)
            && (forall t :: t in s.threads ==> HeldSlots(s.threads[t]) <= s.shared.count)
  {
    SlotInvRun(s0, run);
    var s := Run(s0, run);
    forall t | t in s.threads ensures HeldSlots(s.threads[t]) <= Sum(s.threads, HeldSlots) {
      SumUpdate(s.threads, HeldSlots, t, Idle);
    }
  }

  /** This step of a sweep removes the mailbox. */
  predicate Collects(s: State, t: nat, m: string) {
    PcOf(s, t).GcRemoving? && m in s.shared.auth && m !in Next(s, Do(t, Move(true))).shared.auth
  }

  /** What a sweep removes was abandoned: for 29 days before the sweep read the clock there was neither an
      accepted Hello nor an authorised send, and no socket is connected. */
  lemma OnlyIdleCollected(s0: State, run: seq<Action>, t: nat, m: string)
    requires Started(s0) && Collects(Run(s0, run), t, m)
    ensures var s := Run(s0, run);
            m in s.shared.refreshed && s.shared.refreshed[m] + STALL_MS < PcOf(s, t).started && m !in s.shared.online
  {
    LeaseInvRun(s0, run);
    assert Leased(Run(s0, run).shared, m);
    hide Run;
  }

  /** The mail waiting for it is what arrived since the sweep looked less what is gone since, and there is
      none unless a stalled send has brought some after the look. */
  lemma CollectedWithoutMail(s0: State, run: seq<Action>, t: nat, m: string)
    requires Started(s0) && Collects(Run(s0, run), t, m)
    ensures var s, look := Run(s0, run).shared, PcOf(Run(s0, run), t).stale[0].look;
            && look.left <= Count(s.left, m) && look.stalled <= Count(s.stalled, m)
            && Count(s.queued, m) == (Count(s.arrived, m) - look.arrived) - (Count(s.left, m) - look.left)
            && (Count(s.stalled, m) == look.stalled ==> Count(s.queued, m) == 0)
  {
    StartedMail(s0, m);
    MailInvRun(s0, run, m);
    hide Run;
    LookAtRemoval(Run(s0, run), t, m);
  }

  lemma LookAtRemoval(s: State, t: nat, m: string)
    requires MailInv(s, m) && Collects(s, t, m)
    ensures var pc := PcOf(s, t);
            pc.stale[0].m == m && Lapsed(s.shared, m, pc.started) && LookHolds(s.shared, pc.started, m,
                                                                               pc.stale[0].look)
  {
    assert Knows(s.shared, PcOf(s, t), m);
    assert PcOf(s, t).stale[0] in PcOf(s, t).stale;
  }

  lemma StartedMail(s: State, m: string)
    requires Started(s)
    ensures MailInv(s, m)
  {
  }

  /** As long as no stalled send has brought mail since the look, the purge that follows a removal discards
      exactly the envelopes that arrived after the removal and are not gone otherwise, and it finds the
      queue empty unless a Hello has registered the mailbox anew in between. */
  lemma PurgeSparesUnlessBack(s0: State, run: seq<Action>, t: nat, m: string)
    requires Started(s0) && PcOf(Run(s0, run), t).GcPurge? && PcOf(Run(s0, run), t).m == m
    requires Count(Run(s0, run).shared.stalled, m) == PcOf(Run(s0, run), t).look.stalled
    ensures var s, mark := Run(s0, run).shared, PcOf(Run(s0, run), t).mark;
            && Count(s.queued, m) == (Count(s.arrived, m) - mark.arrived) - (Count(s.left, m) - mark.left)
            && mark.left <= Count(s.left, m) && mark.registered <= Count(s.registered, m)
            && (Count(s.registered, m) == mark.registered ==> m !in s.auth && Count(s.queued, m) == 0)
  {
    StartedMail(s0, m);
    MailInvRun(s0, run, m);
    assert Knows(Run(s0, run).shared, PcOf(Run(s0, run), t), m);
    hide Run;
  }

  // ---------------------------------------------------------------- a run that loses mail

  /** One mailbox, registered on day 0 and silent for 31 days. */
  function Silent(m: string): Shared {
    Shared(31 * DAY_MS, map[m := 0], {}, 1, {}, map[], map[m := 0], map[], map[], map[], map[])
  }

  const START: Mark := Mark(0, 0, 0, 0)

  function Seen(m: string): Found { Found(m, START) }

  function Swept(m: string): Shared { Silent(m).(auth := map[], count := 0) }

  function Rejoined(m: string): Shared {
    Insert(Swept(m).(count := 1, locked := {m}), m)
  }

  function Mailed(m: string): Shared {
    Refresh(Rejoined(m), m).(queued := map[m := 1], arrived := map[m := 1])
  }

  lemma SweepActs(m: string)
    ensures var s, go, at := Silent(m), Move(true), 31 * DAY_MS;
            && Act(s, Idle, Collect) == To(s, GcLooking(at, []))
            && Act(s, GcLooking(at, []), Candidate(m)) == To(s, GcLooking(at, [m]))
            && Act(s, GcLooking(at, [m]), Looked) == To(s, GcChecking(at, [m], []))
            && Act(s, GcChecking(at, [m], []), go) == To(s, GcChecking(at, [], [Seen(m)]))
            && Act(s, GcChecking(at, [], [Seen(m)]), go) == To(s, GcRemoving(at, [Seen(m)]))
            && Act(s, GcRemoving(at, [Seen(m)]), go) == To(s.(auth := map[]), GcCount(m, at, [], START, START))
            && Act(s.(auth := map[]), GcCount(m, at, [], START, START), go)
               == To(Swept(m), GcPurge(m, at, [], START, START))
  {
    var none: seq<string> := [];
    var nothing: seq<Found> := [];
    assert none + [m] == [m] && [m][1..] == none;
    assert nothing + [Seen(m)] == [Seen(m)] && [Seen(m)][1..] == nothing;
    assert Silent(m).auth - {m} == map[];
  }

  lemma RejoinActs(m: string)
    ensures var s, go := Swept(m), Move(true);
            && Act(s, Idle, Hello(m, true)) == To(s.(count := 1, locked := {m}), Reserved(m))
            && Act(s.(count := 1, locked := {m}), Reserved(m), go) == To(Rejoined(m), Idle)
  {
    assert {} + {m} == {m} && {m} - {m} == {};
  }

  lemma SendActs(m: string)
    ensures var s, go := Rejoined(m), Move(true);
            && Act(s, Idle, Send(m, true)) == To(Refresh(s, m), Authorised(m, s.now))
            && Act(Refresh(s, m), Authorised(m, s.now), go) == To(Mailed(m), Idle)
  {
  }

  /** One more action, at the end of the run or at its front. */
  lemma RunFrom(s: State, run: seq<Action>, i: nat)
    requires i < |run|
    ensures Run(s, run[i..]) == Run(Next(s, run[i]), run[i + 1..])
  {
    assert run[i..][0] == run[i] && run[i..][1..] == run[i + 1..];
  }

  lemma Goes(s: State, run: seq<Action>, i: nat, t: nat, r: Request, moved: Moved)
    requires i < |run| && run[i] == Do(t, r) && Act(s.shared, PcOf(s, t), r) == moved
    ensures var s' := Next(s, run[i]);
            && s'.shared == moved.shared && PcOf(s', t) == moved.pc
            && (forall o :: o != t ==> PcOf(s', o) == PcOf(s, o))
            && Run(s, run[i..]) == Run(s', run[i + 1..])
  {
    RunFrom(s, run, i);
    hide Act, Run;
  }

  /** A sweep removes the silent mailbox, its owner returns and is sent a message, and nobody stalls. */
  function LosingRun(m: string): seq<Action> {
    var go := Move(true);
    [Do(0, Collect), Do(0, Candidate(m)), Do(0, Looked), Do(0, go), Do(0, go), Do(0, go), Do(0, go),
     Do(1, Hello(m, true)), Do(1, go), Do(2, Send(m, true)), Do(2, go)]
  }

  lemma LosingSweep(m: string) returns (s7: State)
    ensures var s0, run := State(Silent(m), map[]), LosingRun(m);
            && s7.shared == Swept(m) && PcOf(s7, 0) == GcPurge(m, 31 * DAY_MS, [], START, START)
            && (forall o :: o != 0 ==> PcOf(s7, o) == Idle)
            && Run(s0, run) == Run(s7, run[7..])
  {
    var s0, run, go := State(Silent(m), map[]), LosingRun(m), Move(true);
    var at := 31 * DAY_MS;
    SweepActs(m);
    assert run[0..] == run;
    hide Act, Run, Next;
    Goes(s0, run, 0, 0, Collect, To(Silent(m), GcLooking(at, [])));
    var s1 := Next(s0, run[0]);
    Goes(s1, run, 1, 0, Candidate(m), To(Silent(m), GcLooking(at, [m])));
    var s2 := Next(s1, run[1]);
    Goes(s2, run, 2, 0, Looked, To(Silent(m), GcChecking(at, [m], [])));
    var s3 := Next(s2, run[2]);
    Goes(s3, run, 3, 0, go, To(Silent(m), GcChecking(at, [], [Seen(m)])));
    var s4 := Next(s3, run[3]);
    Goes(s4, run, 4, 0, go, To(Silent(m), GcRemoving(at, [Seen(m)])));
    var s5 := Next(s4, run[4]);
    Goes(s5, run, 5, 0, go, To(Silent(m).(auth := map[]), GcCount(m, at, [], START, START)));
    var s6 := Next(s5, run[5]);
    Goes(s6, run, 6, 0, go, To(Swept(m), GcPurge(m, at, [], START, START)));
    s7 := Next(s6, run[6]);
  }

  lemma LosingReturn(m: string, s7: State) returns (s11: State)
    requires s7.shared == Swept(m) && PcOf(s7, 1) == Idle && PcOf(s7, 2) == Idle
    ensures s11.shared == Mailed(m) && PcOf(s11, 0) == PcOf(s7, 0)
    ensures var run := LosingRun(m);
            Run(s7, run[7..]) == Run(s11, run[11..])
  {
    var run, go := LosingRun(m), Move(true);
    RejoinActs(m);
    SendActs(m);
    hide Act, DayFloor, Run, Next;
    Goes(s7, run, 7, 1, Hello(m, true), To(Swept(m).(count := 1, locked := {m}), Reserved(m)));
    var s8 := Next(s7, run[7]);
    Goes(s8, run, 8, 1, go, To(Rejoined(m), Idle));
    var s9 := Next(s8, run[8]);
    Goes(s9, run, 9, 2, Send(m, true), To(Refresh(Rejoined(m), m), Authorised(m, Rejoined(m).now)));
    var s10 := Next(s9, run[9]);
    Goes(s10, run, 10, 2, go, To(Mailed(m), Idle));
    s11 := Next(s10, run[10]);
  }

  /** Then the purge that was still to come takes the message of the mailbox registered anew. */
  lemma PurgeCanTakeNewMail(m: string)
    ensures var s0 := State(Silent(m), map[]);
            var s := Run(s0, LosingRun(m));
            var s' := Next(s, Do(0, Move(true)));
            && Started(s0) && Count(s.shared.stalled, m) == 0
            && m in s.shared.auth && Count(s.shared.refreshed, m) == s.shared.now && Count(s.shared.queued, m) == 1
            && m in s'.shared.auth && Count(s'.shared.queued, m) == 0
  {
    hide Run, Next;
    var s7 := LosingSweep(m);
    var s11 := LosingReturn(m, s7);
    LastPurge(s11, m, 31 * DAY_MS, LosingRun(m));
  }

  lemma LastPurge(s: State, m: string, at: nat, run: seq<Action>)
    requires s.shared == Mailed(m) && PcOf(s, 0) == GcPurge(m, at, [], START, START) && |run| == 11
    ensures Run(s, run[11..]) == s && Count(s.shared.stalled, m) == 0
    ensures var s' := Next(s, Do(0, Move(true))); m in s'.shared.auth && Count(s'.shared.queued, m) == 0
    ensures m in s.shared.auth && Count(s.shared.refreshed, m) == s.shared.now && Count(s.shared.queued, m) == 1
  {
  }

  // ---------------------------------------------------------------- a run with a stalled send

  /** One mailbox, registered on the day the relay starts. */
  function Known(m: string): Shared { Silent(m).(now := 0) }

  /** A send is authorised and stalls for 31 days, a sweep finds the mailbox idle and its queue empty, and
      only then does the send queue its envelope. */
  function StallingRun(m: string): seq<Action> {
    var go := Move(true);
    [Do(1, Send(m, true)), Tick(31 * DAY_MS), Do(0, Collect), Do(0, Candidate(m)), Do(0, Looked), Do(0, go),
     Do(0, go), Do(1, go)]
  }

  lemma StallActs(m: string)
    ensures Act(Known(m), Idle, Send(m, true)) == To(Known(m), Authorised(m, 0))
    ensures Act(Silent(m), Authorised(m, 0), Move(true)) == To(Queue(Silent(m), m, 0), Idle)
  {
    assert DayFloor(0) == 0;
    assert map[m := 0][m := 0] == map[m := 0];
  }

  lemma StallThenSweep(m: string) returns (s7: State)
    ensures var s0, run := State(Known(m), map[]), StallingRun(m);
            && s7.shared == Silent(m) && PcOf(s7, 0) == GcRemoving(31 * DAY_MS, [Seen(m)]) && PcOf(s7,
                    1) == Authorised(m, 0)
            && Run(s0, run) == Run(s7, run[7..])
  {
    var s0, run, go, at := State(Known(m), map[]), StallingRun(m), Move(true), 31 * DAY_MS;
    SweepActs(m);
    StallActs(m);
    assert run[0..] == run;
    hide Act, Run;
    Goes(s0, run, 0, 1, Send(m, true), To(Known(m), Authorised(m, 0)));
    var s1 := Next(s0, run[0]);
    RunFrom(s1, run, 1);
    var s2 := Next(s1, run[1]);
    hide Next;
    Goes(s2, run, 2, 0, Collect, To(Silent(m), GcLooking(at, [])));
    var s3 := Next(s2, run[2]);
    Goes(s3, run, 3, 0, Candidate(m), To(Silent(m), GcLooking(at, [m])));
    var s4 := Next(s3, run[3]);
    Goes(s4, run, 4, 0, Looked, To(Silent(m), GcChecking(at, [m], [])));
    var s5 := Next(s4, run[4]);
    Goes(s5, run, 5, 0, go, To(Silent(m), GcChecking(at, [], [Seen(m)])));
    var s6 := Next(s5, run[5]);
    Goes(s6, run, 6, 0, go, To(Silent(m), GcRemoving(at, [Seen(m)])));
    s7 := Next(s6, run[6]);
  }

  /** Without promptness a mailbox can be collected with mail waiting. */
  lemma StalledSendIsCollected(m: string)
    ensures var s0 := State(Known(m), map[]);
            && Started(s0) && Collects(Run(s0, StallingRun(m)), 0, m)
            && Count(Run(s0, StallingRun(m)).shared.queued, m) == 1
  {
    var s7 := StallThenSweep(m);
    var run := StallingRun(m);
    StallActs(m);
    Goes(s7, run, 7, 1, Move(true), To(Queue(Silent(m), m, 0), Idle));
    CollectsNow(Next(s7, run[7]), m, run);
    hide Run, Act, Next, Collects;
  }

  lemma CollectsNow(s: State, m: string, run: seq<Action>)
    requires s.shared == Queue(Silent(m), m, 0) && PcOf(s, 0) == GcRemoving(31 * DAY_MS, [Seen(m)]) && |run| == 8
    ensures Run(s, run[8..]) == s && Collects(s, 0, m) && Count(s.shared.queued, m) == 1
  {
  }
}
