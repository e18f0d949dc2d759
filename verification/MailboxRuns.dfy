/** Mailboxes as a run of requests tells of them: contacts, registrations and arrivals are read off the actions
    themselves, not off what the steps have written down. */
module MailboxRuns {
  import opened Tables
  import opened Mailboxes

  // ---------------------------------------------------------------- what happened

  /** The owner says Hello with the right token or somebody sends with the right one, both to a mailbox that is
      registered, or a registration takes effect. */
  predicate Contact(s: State, a: Action, m: string) {
    a.Do? &&
    (|| ((a.request == Hello(m, true) || a.request == Send(m, true))
         && PcOf(s, a.t).Idle? && m in s.shared.auth && m !in s.shared.locked)
     || Registers(s, a, m))
  }

  predicate Registers(s: State, a: Action, m: string) {
    a.Do? && a.request.Move? && PcOf(s, a.t) == Reserved(m)
  }

  /** An authorised send queues its envelope. */
  predicate Arrives(s: State, a: Action, m: string) {
    a.Do? && a.request == Move(true) && PcOf(s, a.t).Authorised? && PcOf(s, a.t).m == m
  }

  /** It does so more than 29 days after it was authorised. */
  predicate ArrivesLate(s: State, a: Action, m: string) {
    Arrives(s, a, m) && PcOf(s, a.t).at + 29 * 24 * 60 * 60 * 1000 < s.shared.now
  }

  /** The clock at the last contact of the run. */
  function LastContact(s: State, run: seq<Action>, m: string, before: Option<nat>): Option<nat>
    decreases |run|
  {
    if run == [] then before
    else LastContact(Next(s, run[0]), run[1..], m, if Contact(s, run[0], m) then Some(s.shared.now) else before)
  }

  function Times(s: State, run: seq<Action>, what: (State, Action) -> bool): nat
    decreases |run|
  {
    if run == [] then 0 else (if what(s, run[0]) then 1 else 0) + Times(Next(s, run[0]), run[1..], what)
  }

  // ---------------------------------------------------------------- the lease is the day of the last contact

  /** `first` is the lease the mailbox had at the start. */
  predicate LeaseFrom(s: Shared, m: string, contact: Option<nat>, first: Option<nat>) {
    && (contact.Some? ==> contact.value <= s.now)
    && (m in s.auth ==>
          if contact.Some? then s.auth[m] == contact.value - contact.value % (24 * 60 * 60 * 1000)
          else first == Some(s.auth[m]))
  }

  lemma DayFloorIs(ms: nat)
    ensures DayFloor(ms) == ms - ms % (24 * 60 * 60 * 1000)
  {
  }

  /** The lease is renewed on the day, or stays, or the mailbox goes. */
  predicate LeaseMoves(s: Shared, s': Shared, m: string, renewed: bool) {
    && s'.now == s.now
    && if renewed then m in s'.auth && s'.auth[m] == s.now - s.now % (24 * 60 * 60 * 1000)
       else m in s'.auth ==> m in s.auth && s'.auth[m] == s.auth[m]
  }

  lemma RequestLease(s: Shared, r: Request, m: string)
    requires !r.Move?
    ensures var contact := (r == Hello(m, true) || r == Send(m, true)) && m in s.auth && m !in s.locked;
            LeaseMoves(s, Act(s, Idle, r).shared, m, contact)
  {
    DayFloorIs(s.now);
    hide Lapsed, DayFloor, Step, SayHello, Authorise, Remove;
    match r
    case Hello(x, ok) => HelloLease(s, x, ok, m);
    case Send(x, ok) => SendLease(s, x, ok, m);
    case Retire(x) => RetireLease(s, x, m);
    case _ =>
  }

  lemma HelloLease(s: Shared, x: string, ok: bool, m: string)
    ensures LeaseMoves(s, SayHello(s, x, ok).shared, m, x == m && ok && m in s.auth && m !in s.locked)
  {
    DayFloorIs(s.now);
    hide DayFloor;
  }

  lemma SendLease(s: Shared, x: string, ok: bool, m: string)
    ensures LeaseMoves(s, Authorise(s, x, ok).shared, m, x == m && ok && m in s.auth && m !in s.locked)
  {
    DayFloorIs(s.now);
    hide DayFloor;
  }

  lemma RetireLease(s: Shared, x: string, m: string)
    ensures LeaseMoves(s, Remove(s, x).shared, m, false)
  {
  }

  lemma RemoveLease(s: Shared, started: nat, stale: seq<Found>, m: string)
    requires stale != []
    ensures LeaseMoves(s, RemoveIf(s, started, stale).shared, m, false)
  {
    hide Lapsed, MarkOf;
  }

  lemma InsertLease(s: Shared, x: string, m: string)
    ensures LeaseMoves(s, Insert(s, x), m, x == m)
  {
    DayFloorIs(s.now);
    hide DayFloor, Count;
  }

  lemma StepLease(s: Shared, pc: Pc, ok: bool, m: string)
    ensures LeaseMoves(s, Step(s, pc, ok).shared, m, pc == Reserved(m))
  {
    hide RemoveIf, Insert, MarkOf;
    if pc.GcRemoving? && pc.stale != [] { RemoveLease(s, pc.started, pc.stale, m); }
    if pc.Reserved? { InsertLease(s, pc.m, m); }
  }

  lemma ContactMoves(s: State, t: nat, r: Request, m: string)
    ensures LeaseMoves(s.shared, Act(s.shared, PcOf(s, t), r).shared, m, Contact(s, Do(t, r), m))
  {
    var pc := PcOf(s, t);
    hide Step, SayHello, Authorise, Remove, Lapsed;
    if r.Move? {
      StepLease(s.shared, pc, r.ok, m);
    } else if pc.Idle? {
      RequestLease(s.shared, r, m);
      hide Act;
    }
  }

  lemma ContactAct(s: State, a: Action, m: string, contact: Option<nat>, first: Option<nat>)
    requires LeaseFrom(s.shared, m, contact, first)
    ensures LeaseFrom(Next(s, a).shared, m, if Contact(s, a, m) then Some(s.shared.now) else contact, first)
  {
    if a.Do? { ContactMoves(s, a.t, a.request, m); }
    hide Act, Contact;
  }

  lemma {:induction false} ContactRun(s: State, run: seq<Action>, m: string, contact: Option<nat>, first: Option<nat>)
    requires LeaseFrom(s.shared, m, contact, first)
    ensures LeaseFrom(Run(s, run).shared, m, LastContact(s, run, m, contact), first)
    decreases |run|
  {
    hide LeaseFrom, Next, Contact;
    if run != [] {
      ContactAct(s, run[0], m, contact, first);
      ContactRun(Next(s, run[0]), run[1..], m, if Contact(s, run[0], m) then Some(s.shared.now) else contact, first);
    }
  }

  /** In every run the lease of a registered mailbox is the day of the last contact, and the lease it started with
      as long as there was none. */
  lemma LeaseIsLastContact(s0: State, run: seq<Action>, m: string)
    requires m in Run(s0, run).shared.auth
    ensures var s, contact := Run(s0, run).shared, LastContact(s0, run, m, None);
            if contact.Some? then
              contact.value <= s.now && s.auth[m] == contact.value - contact.value % (24 * 60 * 60 * 1000)
            else m in s0.shared.auth && s.auth[m] == s0.shared.auth[m]
  {
    ContactRun(s0, run, m, None, Get(s0.shared.auth, m));
  }

  /** The day a mailbox was last in contact, as far as the run and its start tell. */
  function LastDay(s0: State, run: seq<Action>, m: string): nat {
    match LastContact(s0, run, m, None)
    case Some(c) => c - c % (24 * 60 * 60 * 1000)
    case None => if m in s0.shared.auth then s0.shared.auth[m] else 0
  }

  /** A sweep that comes to a mailbox of its list removes it exactly when it is registered, not just being
      registered, offline, and more than 30 days lie between the day of its last contact and the sweep's clock. */
  lemma CollectedExactlyWhen(s0: State, run: seq<Action>, t: nat, m: string)
    requires PcOf(Run(s0, run), t).GcRemoving?
    ensures var s, sweep := Run(s0, run).shared, PcOf(Run(s0, run), t);
            Collects(Run(s0, run), t, m) <==>
            && sweep.stale != [] && sweep.stale[0].m == m && m in s.auth && m !in s.locked && m !in s.online
            && LastDay(s0, run, m) + 30 * 24 * 60 * 60 * 1000 < sweep.started
  {
    if m in Run(s0, run).shared.auth { LeaseIsLastContact(s0, run, m); }
    RemovesExactly(Run(s0, run), t, m);
    hide Run, LastContact, Collects;
  }

  lemma RemovesExactly(s: State, t: nat, m: string)
    requires PcOf(s, t).GcRemoving?
    ensures var sweep := PcOf(s, t);
            Collects(s, t, m) <==>
            && sweep.stale != [] && sweep.stale[0].m == m && m in s.shared.auth && m !in s.shared.locked
            && m !in s.shared.online && s.shared.auth[m] + 30 * 24 * 60 * 60 * 1000 < sweep.started
  {
    hide Count, MarkOf;
  }

  /** The mailboxes a sweep is going to look at, or to remove. */
  function Listed(pc: Pc): set<string> {
    match pc
    case GcLooking(_, candidates) => set i | 0 <= i < |candidates| :: candidates[i]
    case GcRemoving(_, stale) => set i | 0 <= i < |stale| :: stale[i].m
    case GcChecking(_, _, stale) => set i | 0 <= i < |stale| :: stale[i].m
    case _ => {}
  }

  /** A sweep takes up a mailbox it comes by exactly when it is registered and its last contact lies that far back,
      and puts it on its list exactly when its queue is empty and nobody is connected at that moment. */
  lemma ListedExactlyWhen(s0: State, run: seq<Action>, t: nat, m: string)
    ensures var s, sweep := Run(s0, run), PcOf(Run(s0, run), t);
            && (sweep.GcLooking? ==>
                  Listed(PcOf(Next(s, Do(t, Candidate(m))), t)) == Listed(sweep) +
                    if m in s.shared.auth && LastDay(s0, run, m) + 30 * 24 * 60 * 60 * 1000 < sweep.started
                    then {m} else {})
            && (sweep.GcChecking? && sweep.candidates != [] && sweep.candidates[0] == m ==>
                  Listed(PcOf(Next(s, Do(t, Move(true))), t)) == Listed(sweep) +
                    if Count(s.shared.queued, m) == 0 && m !in s.shared.online then {m} else {})
  {
    var s, sweep := Run(s0, run), PcOf(Run(s0, run), t);
    if m in s.shared.auth { LeaseIsLastContact(s0, run, m); }
    hide Run, LastContact;
    if sweep.GcLooking? { CandidateListed(s, t, m); }
    if sweep.GcChecking? && sweep.candidates != [] && sweep.candidates[0] == m { FoundListed(s, t, m); }
    hide Next, Listed, Count;
  }

  lemma CandidateListed(s: State, t: nat, m: string)
    requires PcOf(s, t).GcLooking?
    ensures Listed(PcOf(Next(s, Do(t, Candidate(m))), t)) == Listed(PcOf(s, t)) +
              if m in s.shared.auth && s.shared.auth[m] + 30 * 24 * 60 * 60 * 1000 < PcOf(s, t).started
              then {m} else {}
  {
    var cs := PcOf(s, t).candidates;
    assert (cs + [m])[|cs|] == m && forall i :: 0 <= i < |cs| ==> (cs + [m])[i] == cs[i];
  }

  lemma FoundListed(s: State, t: nat, m: string)
    requires PcOf(s, t).GcChecking? && PcOf(s, t).candidates != [] && PcOf(s, t).candidates[0] == m
    ensures Listed(PcOf(Next(s, Do(t, Move(true))), t)) == Listed(PcOf(s, t)) +
              if Count(s.shared.queued, m) == 0 && m !in s.shared.online then {m} else {}
  {
    var fs, f := PcOf(s, t).stale, Found(m, MarkOf(s.shared, m));
    assert (fs + [f])[|fs|] == f && forall i :: 0 <= i < |fs| ==> (fs + [f])[i] == fs[i];
    hide MarkOf;
  }

  /** So a mailbox a sweep removes had no contact for 29 days before the sweep read the clock. */
  lemma NoContactBeforeCollection(s0: State, run: seq<Action>, t: nat, m: string)
    requires Collects(Run(s0, run), t, m)
    ensures var contact, sweep := LastContact(s0, run, m, None), PcOf(Run(s0, run), t);
            && m !in Run(s0, run).shared.online
            && if contact.Some? then contact.value + 29 * 24 * 60 * 60 * 1000 < sweep.started
               else m in s0.shared.auth && s0.shared.auth[m] + 30 * 24 * 60 * 60 * 1000 < sweep.started
  {
    CollectedExactlyWhen(s0, run, t, m);
    LeaseIsLastContact(s0, run, m);
    hide Run, LastContact, Collects;
  }

  // ---------------------------------------------------------------- sends rest on contacts

  ghost predicate SendsRest(s: State, m: string, contact: Option<nat>) {
    forall t :: t in s.threads && s.threads[t].Authorised? && s.threads[t].m == m ==>
      contact.Some? && s.threads[t].at <= contact.value <= s.shared.now
  }

  /** A step that leaves a send authorised found it so, or is the contact that authorises it. */
  lemma AuthorisedBy(s: State, t: nat, r: Request, m: string)
    ensures var moved := Act(s.shared, PcOf(s, t), r);
            && moved.shared.now == s.shared.now
            && (moved.pc.Authorised? && moved.pc.m == m ==>
                  moved.pc == PcOf(s, t) || (Contact(s, Do(t, r), m) && moved.pc.at == s.shared.now))
  {
    var pc := PcOf(s, t);
    ContactMoves(s, t, r, m);
    if r.Move? {
      hide Purge, Queue, Insert, RemoveIf, MarkOf;
    } else {
      hide Step, Lapsed, Refresh;
    }
  }

  lemma SendActs(s: State, a: Action, m: string, contact: Option<nat>)
    requires SendsRest(s, m, contact)
    ensures SendsRest(Next(s, a), m, if Contact(s, a, m) then Some(s.shared.now) else contact)
  {
    if a.Do? { AuthorisedBy(s, a.t, a.request, m); }
    hide Act, Contact;
  }

  lemma {:induction false} SendsRun(s: State, run: seq<Action>, m: string, contact: Option<nat>)
    requires SendsRest(s, m, contact)
    ensures SendsRest(Run(s, run), m, LastContact(s, run, m, contact))
    decreases |run|
  {
    hide SendsRest, Next, Contact;
    if run != [] {
      SendActs(s, run[0], m, contact);
      SendsRun(Next(s, run[0]), run[1..], m, if Contact(s, run[0], m) then Some(s.shared.now) else contact);
    }
  }

  /** Whoever is about to queue an envelope was authorised by a contact, and no later than the last one. */
  lemma SendersAreAuthorised(s0: State, run: seq<Action>, t: nat, m: string)
    requires s0.threads == map[] && PcOf(Run(s0, run), t).Authorised? && PcOf(Run(s0, run), t).m == m
    ensures var contact := LastContact(s0, run, m, None);
            contact.Some? && PcOf(Run(s0, run), t).at <= contact.value
  {
    SendsRun(s0, run, m, None);
    hide Run, LastContact;
  }

  // ---------------------------------------------------------------- the record is the run's

  predicate Recorded(s: State, a: Action, m: string) {
    var before, after := s.shared, Next(s, a).shared;
    && Count(after.arrived, m) == Count(before.arrived, m) + (if Arrives(s, a, m) then 1 else 0)
    && Count(after.stalled, m) == Count(before.stalled, m) + (if ArrivesLate(s, a, m) then 1 else 0)
    && Count(after.registered, m) == Count(before.registered, m) + (if Registers(s, a, m) then 1 else 0)
  }

  lemma RegistrationAct(s: Shared, pc: Pc, r: Request, m: string)
    ensures Count(Act(s, pc, r).shared.registered, m)
            == Count(s.registered, m) + (if r.Move? && pc == Reserved(m) then 1 else 0)
  {
    hide Lapsed, DayFloor;
  }

  lemma ArrivalAct(s: Shared, pc: Pc, r: Request, m: string)
    ensures var s', arrives := Act(s, pc, r).shared, r == Move(true) && pc.Authorised? && pc.m == m;
            && Count(s'.arrived, m) == Count(s.arrived, m) + (if arrives then 1 else 0)
            && Count(s'.stalled, m) == Count(s.stalled, m) + (if arrives && pc.at + STALL_MS < s.now then 1 else 0)
  {
    if !MovesMail(pc, r) {
      MailStays(s, pc, r, m);
      hide Act, Count;
    } else if pc.Authorised? {
      hide RemoveIf, Purge, Insert, MarkOf;
    } else {
      PurgeRecorded(s, pc.m, m);
      hide RemoveIf, Purge, Insert, MarkOf, Count;
    }
  }

  lemma PurgeRecorded(s: Shared, x: string, m: string)
    ensures Count(Purge(s, x).arrived, m) == Count(s.arrived, m)
    ensures Count(Purge(s, x).stalled, m) == Count(s.stalled, m)
  {
  }

  lemma RecordAct(s: State, a: Action, m: string)
    ensures Recorded(s, a, m)
  {
    if a.Do? {
      RegistrationAct(s.shared, PcOf(s, a.t), a.request, m);
      ArrivalAct(s.shared, PcOf(s, a.t), a.request, m);
      hide Act, Count;
    }
  }

  /** Arrivals, late arrivals and registrations on record are those of the run. */
  lemma {:induction false} RecordIsRun(s: State, run: seq<Action>, m: string)
    ensures var r := Run(s, run).shared;
            && Count(r.arrived, m) == Count(s.shared.arrived, m) + Times(s, run, (s, a) => Arrives(s, a, m))
            && Count(r.stalled, m) == Count(s.shared.stalled, m) + Times(s, run, (s, a) => ArrivesLate(s, a, m))
            && Count(r.registered, m) == Count(s.shared.registered, m) + Times(s, run, (s, a) => Registers(s, a, m))
    decreases |run|
  {
    if run != [] {
      RecordAct(s, run[0], m);
      RecordIsRun(Next(s, run[0]), run[1..], m);
      hide Next, Arrives, ArrivesLate, Registers, Count;
    }
  }

  // ---------------------------------------------------------------- whole requests

  /** Hello said and its registration, if any, completed. */
  function AfterHello(s: State, t: nat, m: string, ok: bool): State {
    Next(Next(s, Do(t, Hello(m, ok))), Do(t, Move(true)))
  }

  /** A Hello registers or renews exactly when it is accepted, nobody is registering the mailbox, and the mailbox
      is known or one of 50 000 slots is free; otherwise it changes nothing. */
  lemma HelloRegistersExactlyWhen(s: State, t: nat, m: string, ok: bool)
    requires PcOf(s, t).Idle?
    ensures var before, after := s.shared, AfterHello(s, t, m, ok).shared;
            && PcOf(AfterHello(s, t, m, ok), t).Idle?
            && if ok && m !in before.locked && (m in before.auth || before.count < 50_000) then
                 && m in after.auth && after.auth[m] <= after.now < after.auth[m] + 24 * 60 * 60 * 1000
                 && after.count == before.count + (if m in before.auth then 0 else 1)
                 && after.auth - {m} == before.auth - {m} && after.locked == before.locked
                 && after.queued == before.queued
               else after == before
  {
    hide DayFloor;
  }

  function AfterRetire(s: State, t: nat, m: string): State {
    Next(Next(Next(s, Do(t, Retire(m))), Do(t, Move(true))), Do(t, Move(true)))
  }

  lemma RetireActs(s: Shared, m: string)
    requires m !in s.locked
    ensures var gone := s.(auth := s.auth - {m});
            Act(s, Idle, Retire(m)) == if m in s.auth then To(gone, RetireCount(m)) else To(s, RetirePurge(m))
    ensures Act(s, RetireCount(m), Move(true)) == To(s.(count := WrapSub(s.count, 1)), RetirePurge(m))
    ensures Act(s, RetirePurge(m), Move(true)) == To(Purge(s, m), Idle)
  {
  }

  lemma StaysIdle(s: Shared)
    ensures Act(s, Idle, Move(true)) == To(s, Idle)
  {
  }

  lemma Purged(s: Shared, m: string)
    ensures var s' := Purge(s, m);
            && s'.auth == s.auth && s'.count == s.count && Count(s'.queued, m) == 0
            && forall o :: o != m ==> Count(s'.queued, o) == Count(s.queued, o)
  {
  }

  lemma RetireRegistered(s: State, t: nat, m: string)
    requires PcOf(s, t).Idle? && m !in s.shared.locked && m in s.shared.auth
    ensures var gone := s.shared.(auth := s.shared.auth - {m});
            var freed := gone.(count := WrapSub(gone.count, 1));
            AfterRetire(s, t, m).shared == Purge(freed, m) && PcOf(AfterRetire(s, t, m), t).Idle?
  {
    var gone := s.shared.(auth := s.shared.auth - {m});
    RetireActs(s.shared, m);
    RetireActs(gone, m);
    RetireActs(gone.(count := WrapSub(gone.count, 1)), m);
    hide Act, Purge, WrapSub;
  }

  lemma RetireUnknown(s: State, t: nat, m: string)
    requires PcOf(s, t).Idle? && m !in s.shared.locked && m !in s.shared.auth
    ensures AfterRetire(s, t, m).shared == Purge(s.shared, m) && PcOf(AfterRetire(s, t, m), t).Idle?
  {
    RetireActs(s.shared, m);
    StaysIdle(Purge(s.shared, m));
    hide Act, Purge;
  }

  /** A retired mailbox is gone with its mail and its slot, and all others are as they were. */
  lemma RetireForgets(s: State, t: nat, m: string)
    requires PcOf(s, t).Idle? && m !in s.shared.locked && |s.shared.auth| <= s.shared.count
    ensures var before, after := s.shared, AfterRetire(s, t, m).shared;
            && PcOf(AfterRetire(s, t, m), t).Idle?
            && after.auth == before.auth - {m} && Count(after.queued, m) == 0
            && after.count == before.count - |before.auth| + |after.auth|
            && (forall o :: o != m ==> Count(after.queued, o) == Count(before.queued, o))
  {
    var gone := s.shared.(auth := s.shared.auth - {m});
    DropSize(s.shared.auth, m);
    hide AfterRetire, Purge, Count;
    if m in s.shared.auth {
      RetireRegistered(s, t, m);
      Purged(gone.(count := WrapSub(gone.count, 1)), m);
    } else {
      RetireUnknown(s, t, m);
      Purged(s.shared, m);
    }
  }
}
