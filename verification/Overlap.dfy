/**
 * Deliveries that overlap (app/api/v1/webhooks.py:130-192). The handler reads the entitlements row,
 * decides, and then upserts without a condition on the row, all in one transaction that locks no row
 * before the upsert. So a delivery is two steps here, its reads and its commit, and other deliveries
 * come in between. Only one open transaction at a time can have inserted an event id: a second
 * delivery of it waits for the first to commit or roll back.
 */
module Overlap {
  import opened Prelude
  import opened Webhooks

  type Ticket = nat

  /** A delivery that has decided to write and not committed yet. */
  datatype Open = Open(e: Event, user: UserId, state: State)

  datatype Hub = Hub(db: Ledger, open: map<Ticket, Open>)

  datatype Step = Read(ticket: Ticket, e: Event) | Write(ticket: Ticket) | RollBack(ticket: Ticket)

  predicate IdIsHeld(h: Hub, id: EventId) { exists t | t in h.open :: h.open[t].e.id == id }

  /** The read gets through: its ticket is new and no open delivery holds the event's id. */
  predicate Enters(h: Hub, step: Step) { step.Read? && step.ticket !in h.open && !IdIsHeld(h, step.e.id) }

  function StepOf(h: Hub, users: set<UserId>, step: Step): Hub {
    match step
    case Read(ticket, e) =>
      if !Enters(h, step) then h
      else
        var d := Decide(h.db, users, e);
        if d.Apply? then h.(open := h.open[ticket := Open(e, d.user, d.state)]) else h.(db := Committed(h.db, e, d).0)
    case Write(ticket) =>
      if ticket !in h.open then h
      else
        var o := h.open[ticket];
        Hub(Committed(h.db, o.e, Apply(o.user, o.state)).0, h.open - {ticket})
    case RollBack(ticket) => h.(open := h.open - {ticket})
  }

  function RunFrom(h: Hub, users: set<UserId>, steps: seq<Step>): Hub {
    if steps == [] then h else StepOf(RunFrom(h, users, steps[..|steps| - 1]), users, steps[|steps| - 1])
  }

  const EMPTY := Hub(Ledger(map[], map[]), map[])

  function Run(users: set<UserId>, steps: seq<Step>): Hub { RunFrom(EMPTY, users, steps) }

  /** The event whose delivery ends with this step, if one does. */
  function Ending(h: Hub, users: set<UserId>, step: Step): seq<Event> {
    match step
    case Read(_, e) => if Enters(h, step) && Decide(h.db, users, e).Answer? then [e] else []
    case Write(ticket) => if ticket in h.open then [h.open[ticket].e] else []
    case RollBack(_) => []
  }

  /** The deliveries of a run in the order they end, redeliveries among them. */
  function Log(users: set<UserId>, steps: seq<Step>): seq<Event> {
    if steps == [] then []
    else
      var n := |steps| - 1;
      Log(users, steps[..n]) + Ending(Run(users, steps[..n]), users, steps[n])
  }

  /** Open deliveries are as they were admitted: their ids not recorded yet, and no two of one event. */
  ghost predicate Admitted(h: Hub, users: set<UserId>) {
    && (forall t | t in h.open ::
          && h.open[t].e.id !in h.db.processed
          && h.open[t].e.user == Some(h.open[t].user) && h.open[t].user in users
          && EventState(h.open[t].e.kind) == Some(h.open[t].state))
    && (forall t, u | t in h.open && u in h.open && t != u :: h.open[t].e.id != h.open[u].e.id)
  }

  lemma StepAdmitted(h: Hub, users: set<UserId>, step: Step)
    requires Admitted(h, users)
    ensures Admitted(StepOf(h, users, step), users)
  {
    var h' := StepOf(h, users, step);
    if step.Read? && Enters(h, step) {
      forall t | t in h.open
        ensures h.open[t].e.id != step.e.id
      {
      }
    }
    assert forall t | t in h'.open && t in h.open :: h'.open[t] == h.open[t];
  }

  lemma {:induction false} RunAdmitted(users: set<UserId>, steps: seq<Step>)
    ensures Admitted(Run(users, steps), users)
  {
    if steps != [] {
      var n := |steps| - 1;
      RunAdmitted(users, steps[..n]);
      StepAdmitted(Run(users, steps[..n]), users, steps[n]);
    }
  }

  /** A delivery that rolls back leaves nothing behind, so the provider's retry of its event gets through. */
  lemma RolledBackIsRetried(h: Hub, users: set<UserId>, ticket: Ticket, again: Ticket)
    requires Admitted(h, users) && ticket in h.open && (again == ticket || again !in h.open)
    ensures var h', e := StepOf(h, users, RollBack(ticket)), h.open[ticket].e;
            && h'.db == h.db && e.id !in h'.db.processed && Enters(h', Read(again, e))
            && forall t | t in h.open && t != ticket :: t in h'.open && h'.open[t] == h.open[t]
  {
  }

  // ----- in order ---------------------------------------------------------------------------------------

  /** The row, when it is written, has no newer watermark than the event. */
  predicate InTime(h: Hub, step: Step) {
    step.Write? && step.ticket in h.open ==> !IsStale(Lookup(h.db, h.open[step.ticket].user), h.open[step.ticket].e)
  }

  ghost predicate Ordered(users: set<UserId>, steps: seq<Step>) {
    forall i | 0 <= i < |steps| :: InTime(Run(users, steps[..i]), steps[i])
  }

  /** A write in time is the same as delivering its event then, and one that is not is not. */
  lemma WriteIsDeliveryIff(h: Hub, users: set<UserId>, ticket: Ticket)
    requires Admitted(h, users) && ticket in h.open
    ensures StepOf(h, users, Write(ticket)).db == Deliver(h.db, users, h.open[ticket].e).0 <==> InTime(h, Write(ticket))
  {
    var o := h.open[ticket];
    var written, delivered := StepOf(h, users, Write(ticket)).db, Deliver(h.db, users, o.e).0;
    if !InTime(h, Write(ticket)) {
      assert Lookup(written, o.user) != Lookup(delivered, o.user) by {
        assert written.entitlements[o.user].lastEvent == Some(o.e.timestamp);
        assert delivered.entitlements == h.db.entitlements;
      }
    }
  }

  lemma StepIsDelivery(h: Hub, users: set<UserId>, step: Step)
    requires Admitted(h, users) && InTime(h, step)
    ensures var ending := Ending(h, users, step);
            StepOf(h, users, step).db == if ending == [] then h.db else Deliver(h.db, users, ending[0]).0
  {
    if step.Write? && step.ticket in h.open { WriteIsDeliveryIff(h, users, step.ticket); }
  }

  lemma OrderedUpTo(users: set<UserId>, steps: seq<Step>, n: nat)
    requires Ordered(users, steps) && n <= |steps|
    ensures Ordered(users, steps[..n])
  {
    forall i | 0 <= i < n
      ensures InTime(Run(users, steps[..n][..i]), steps[..n][i])
    {
      assert steps[..n][..i] == steps[..i];
    }
  }

  /**
   * A run whose writes are in time leaves the tables that its deliveries leave one at a time, in
   * the order they ended.
   */
  lemma {:induction false} OrderedIsSerial(users: set<UserId>, steps: seq<Step>)
    requires Ordered(users, steps)
    ensures Run(users, steps).db == Delivered(users, Log(users, steps))
  {
    if steps != [] {
      var n := |steps| - 1;
      var before, ending := Log(users, steps[..n]), Ending(Run(users, steps[..n]), users, steps[n]);
      OrderedUpTo(users, steps, |steps| - 1);
      OrderedIsSerial(users, steps[..n]);
      RunAdmitted(users, steps[..n]);
      StepIsDelivery(Run(users, steps[..n]), users, steps[n]);
      if ending == [] {
        assert before + ending == before;
      } else {
        assert ending == [ending[0]];
        DeliveredNext(users, before, ending[0]);
      }
    }
  }

  lemma DeliveredNext(users: set<UserId>, events: seq<Event>, e: Event)
    ensures Delivered(users, events + [e]) == Deliver(Delivered(users, events), users, e).0
  {
    var longer := events + [e];
    assert longer[..|longer| - 1] == events && longer[|longer| - 1] == e;
  }

  // ----- what holds of runs in order -----------------------------------------------------------------

  /**
   * However deliveries of any events overlap and repeat, as long as no write finds a newer
   * watermark: a user has a row if and only if some event concerned them, in the state of a latest one.
   */
  lemma LatestEventWinsOverlapping(users: set<UserId>, steps: seq<Step>, user: UserId)
    requires Ordered(users, steps) && IdsIdentify(Log(users, steps)) && user in users
    ensures Follows(Run(users, steps).db, Log(users, steps), user)
  {
    OrderedIsSerial(users, steps);
    LatestEventWins(users, Log(users, steps), user);
  }

  /**
   * Two such runs that end the same events, in any order and with any redeliveries, leave every
   * user in the same state.
   */
  lemma OverlappingDeliveriesConverge(users: set<UserId>, a: seq<Step>, b: seq<Step>, user: UserId)
    requires Ordered(users, a) && Ordered(users, b) && user in users
    requires IdsIdentify(Log(users, a)) && IdsIdentify(Log(users, b)) && DistinctTimes(Log(users, a))
    requires forall e :: e in Log(users, a) <==> e in Log(users, b)
    ensures SameState(Lookup(Run(users, a).db, user), Lookup(Run(users, b).db, user))
  {
    OrderedIsSerial(users, a);
    OrderedIsSerial(users, b);
    DeliveriesConverge(users, Log(users, a), Log(users, b), user);
  }

  function OutcomeOfDecision(d: Decision): Outcome { if d.Answer? then d.outcome else Processed }

  /** In such a run each delivery is answered from the deliveries that had ended by its reads, and from nothing else. */
  lemma OverlappingOutcomeExact(users: set<UserId>, steps: seq<Step>, e: Event)
    requires Ordered(users, steps) && IdsIdentify(Log(users, steps) + [e])
    ensures OutcomeOfDecision(Decide(Run(users, steps).db, users, e)) == OwedOutcome(users, Log(users, steps), e)
  {
    var log := Log(users, steps);
    OrderedIsSerial(users, steps);
    assert (log + [e])[..|log|] == log && (log + [e])[|log|] == e;
    OutcomeExact(users, log + [e], |log|);
  }

  /** The state, and any column the latest event carries, is that event's, however the deliveries overlapped. */
  lemma OverlappingLatestCarries(users: set<UserId>, steps: seq<Step>, user: UserId, e: Event)
    requires Ordered(users, steps) && user in users
    requires var log := Log(users, steps); IdsIdentify(log) && DistinctTimes(log) && IsLatest(log, user, e)
    ensures user in Run(users, steps).db.entitlements
    ensures var row := Run(users, steps).db.entitlements[user];
            && StateFrom(row, e) && row.appUserId == e.appUserId
            && (ProductOf(e).Some? ==> row.productId == ProductOf(e))
            && (StoreOf(e).Some? ==> row.store == StoreOf(e))
            && (PeriodEndOf(e).Some? ==> row.periodEnd == PeriodEndOf(e))
  {
    OrderedIsSerial(users, steps);
    LatestCarries(users, Log(users, steps), user, e);
  }

  /**
   * What the user reads: active after a purchase, a renewal, a change of product or an undone
   * cancellation; still pro, but cancelled or in grace, after a cancellation or a billing issue; and
   * free, expired, after an expiration.
   */
  lemma LatestEventDecides(users: set<UserId>, steps: seq<Step>, user: UserId, e: Event)
    requires Ordered(users, steps) && user in users
    requires var log := Log(users, steps); IdsIdentify(log) && DistinctTimes(log) && IsLatest(log, user, e)
    ensures user in Run(users, steps).db.entitlements && !e.kind.OtherKind?
    ensures var row := Run(users, steps).db.entitlements[user];
            match e.kind
            case InitialPurchase | Renewal | ProductChange | Uncancellation => row.tier == Pro && row.status == Active
            case Cancellation => row.tier == Pro && row.status == Cancelled
            case BillingIssue => row.tier == Pro && row.status == InGrace
            case Expiration => row.tier == Free && row.status == Expired
            case OtherKind(_) => false
  {
    OverlappingLatestCarries(users, steps, user, e);
  }

  /** An event of any other type is recorded and changes no row, in whatever run its delivery ends. */
  lemma OtherKindsChangeNothing(users: set<UserId>, steps: seq<Step>, step: Step, e: Event)
    requires Ending(Run(users, steps), users, step) == [e] && e.kind.OtherKind?
    ensures var before, after := Run(users, steps).db, StepOf(Run(users, steps), users, step).db;
            && after.entitlements == before.entitlements
            && e.id in after.processed
  {
    RunAdmitted(users, steps);
  }

  // ----- and of no others ------------------------------------------------------------------------------

  /**
   * The condition is exact: a write leaves its user's row in the state of a latest event if and
   * only if it is in time.
   */
  lemma WriteFollowsIff(h: Hub, users: set<UserId>, log: seq<Event>, ticket: Ticket)
    requires Admitted(h, users) && ticket in h.open && Follows(h.db, log, h.open[ticket].user)
    ensures var o := h.open[ticket];
            Follows(StepOf(h, users, Write(ticket)).db, log + [o.e], o.user) <==> InTime(h, Write(ticket))
  {
    var o := h.open[ticket];
    var db' := StepOf(h, users, Write(ticket)).db;
    if InTime(h, Write(ticket)) {
      WriteIsDeliveryIff(h, users, ticket);
      DeliverFollows(h.db, users, log, o.e, o.user);
    } else {
      NotLatest(h, log, o.e, o.user);
      assert db'.entitlements[o.user].lastEvent == Some(o.e.timestamp);
    }
  }

  /** A stored watermark is an event's of the log, so an older event is not a latest one. */
  lemma NotLatest(h: Hub, log: seq<Event>, e: Event, user: UserId)
    requires Follows(h.db, log, user) && IsStale(Lookup(h.db, user), e)
    ensures forall f | IsLatest(log + [e], user, f) :: f.timestamp != e.timestamp
  {
    var top :| IsLatest(log, user, top) && StateFrom(h.db.entitlements[user], top);
    assert top in log + [e];
  }

  /**
   * Whenever a write finds a newer watermark, however that came to be there, the row is left in the
   * state of an event that is not a latest one.
   */
  lemma LateWriteLosesLatest(h: Hub, users: set<UserId>, log: seq<Event>, ticket: Ticket)
    requires Admitted(h, users) && ticket in h.open && Follows(h.db, log, h.open[ticket].user)
    requires IsStale(Lookup(h.db, h.open[ticket].user), h.open[ticket].e)
    ensures var o, db' := h.open[ticket], StepOf(h, users, Write(ticket)).db;
            && o.user in db'.entitlements && StateFrom(db'.entitlements[o.user], o.e)
            && !IsLatest(log + [o.e], o.user, o.e) && !Follows(db', log + [o.e], o.user)
  {
    WriteFollowsIff(h, users, log, ticket);
    NotLatest(h, log, h.open[ticket].e, h.open[ticket].user);
  }

  lemma LogNext(users: set<UserId>, steps: seq<Step>, n: nat)
    requires n < |steps|
    ensures Run(users, steps[..n + 1]) == StepOf(Run(users, steps[..n]), users, steps[n])
    ensures Log(users, steps[..n + 1]) == Log(users, steps[..n]) + Ending(Run(users, steps[..n]), users, steps[n])
  {
    assert steps[..n + 1][..n] == steps[..n];
  }

  lemma {:induction false} PrefixIdentifies(users: set<UserId>, steps: seq<Step>, n: nat)
    requires IdsIdentify(Log(users, steps)) && n <= |steps|
    ensures IdsIdentify(Log(users, steps[..n]))
    decreases |steps| - n
  {
    if n == |steps| {
      assert steps[..n] == steps;
    } else {
      PrefixIdentifies(users, steps, n + 1);
      LogNext(users, steps, n);
      var shorter, longer := Log(users, steps[..n]), Log(users, steps[..n + 1]);
      assert forall i | 0 <= i < |shorter| :: longer[i] == shorter[i];
    }
  }

  /** At all times every user is in the state of a latest event that has ended. */
  ghost predicate AlwaysFollows(users: set<UserId>, steps: seq<Step>) {
    forall n, user | 0 <= n <= |steps| && user in users ::
      Follows(Run(users, steps[..n]).db, Log(users, steps[..n]), user)
  }

  lemma FollowsAfterWrite(users: set<UserId>, steps: seq<Step>, i: nat)
    requires AlwaysFollows(users, steps) && i < |steps|
    ensures InTime(Run(users, steps[..i]), steps[i])
  {
    var h := Run(users, steps[..i]);
    RunAdmitted(users, steps[..i]);
    LogNext(users, steps, i);
    if steps[i].Write? && steps[i].ticket in h.open {
      var user := h.open[steps[i].ticket].user;
      assert Follows(h.db, Log(users, steps[..i]), user);
      assert Follows(Run(users, steps[..i + 1]).db, Log(users, steps[..i + 1]), user);
      WriteFollowsIff(h, users, Log(users, steps[..i]), steps[i].ticket);
    }
  }

  /** Over whole runs: that holds if and only if no write finds a newer watermark. */
  lemma AlwaysFollowsIff(users: set<UserId>, steps: seq<Step>)
    requires IdsIdentify(Log(users, steps))
    ensures AlwaysFollows(users, steps) <==> Ordered(users, steps)
  {
    if Ordered(users, steps) {
      forall n, user | 0 <= n <= |steps| && user in users
        ensures Follows(Run(users, steps[..n]).db, Log(users, steps[..n]), user)
      {
        OrderedUpTo(users, steps, n);
        PrefixIdentifies(users, steps, n);
        LatestEventWinsOverlapping(users, steps[..n], user);
      }
    }
    if AlwaysFollows(users, steps) {
      forall i | 0 <= i < |steps|
        ensures InTime(Run(users, steps[..i]), steps[i])
      {
        FollowsAfterWrite(users, steps, i);
      }
    }
  }

  /** The events written for a user, in order. */
  function Written(users: set<UserId>, steps: seq<Step>, user: UserId): seq<Event> {
    if steps == [] then []
    else
      var n := |steps| - 1;
      Written(users, steps[..n], user) + WrittenBy(Run(users, steps[..n]), steps[n], user)
  }

  function WrittenBy(h: Hub, step: Step, user: UserId): seq<Event> {
    if step.Write? && step.ticket in h.open && h.open[step.ticket].user == user then [h.open[step.ticket].e] else []
  }

  lemma OnlyWritesChange(h: Hub, users: set<UserId>, step: Step, user: UserId)
    requires WrittenBy(h, step, user) == []
    ensures Lookup(StepOf(h, users, step).db, user) == Lookup(h.db, user)
  {
  }

  /** Whatever was written for a user is an event of the log that concerns them. */
  lemma {:induction false} WrittenConcerns(users: set<UserId>, steps: seq<Step>, user: UserId, i: nat)
    requires i < |Written(users, steps, user)|
    ensures var e := Written(users, steps, user)[i]; e in Log(users, steps) && Concerns(e, user)
  {
    var n := |steps| - 1;
    RunAdmitted(users, steps[..n]);
    if i < |Written(users, steps[..n], user)| { WrittenConcerns(users, steps[..n], user, i); }
  }

  lemma StepRow(h: Hub, users: set<UserId>, step: Step, written: seq<Event>, user: UserId)
    requires Admitted(h, users) && RowOf(Lookup(h.db, user), written)
    ensures RowOf(Lookup(StepOf(h, users, step).db, user), written + WrittenBy(h, step, user))
  {
    if WrittenBy(h, step, user) == [] {
      OnlyWritesChange(h, users, step, user);
      assert written + [] == written;
    } else {
      TransitionRow(Lookup(h.db, user), written, h.open[step.ticket].e);
    }
  }

  /**
   * Overlapping or not, in order or not: the row is the last written event's state, watermark and
   * application id, with the last product, store and period end that any written event carried.
   */
  lemma {:induction false} RowIsLastWritten(users: set<UserId>, steps: seq<Step>, user: UserId)
    ensures RowOf(Lookup(Run(users, steps).db, user), Written(users, steps, user))
  {
    if steps != [] {
      var n := |steps| - 1;
      RowIsLastWritten(users, steps[..n], user);
      RunAdmitted(users, steps[..n]);
      StepRow(Run(users, steps[..n]), users, steps[n], Written(users, steps[..n], user), user);
    }
  }

  /** The event names a store the handler knows. */
  predicate NamesStore(e: Event) { e.store.Some? && !e.store.value.OtherStore? }

  /** Both of Apple's are one. */
  ghost predicate StoredAs(store: Option<Store>, raw: RawStore) {
    && (store == Some(AppStore) <==> raw.RawAppStore? || raw.RawMacAppStore?)
    && (store == Some(PlayStore) <==> raw.RawPlayStore?)
    && (store == Some(Stripe) <==> raw.RawStripe?)
  }

  ghost predicate IsLastNamed(events: seq<Event>, i: nat) {
    && i < |events| && NamesStore(events[i])
    && forall j | i < j < |events| :: !NamesStore(events[j])
  }

  /** The last store named; one the handler does not know counts as not named. */
  ghost predicate IsLastStore(store: Option<Store>, events: seq<Event>) {
    && (store == None <==> forall i | 0 <= i < |events| :: !NamesStore(events[i]))
    && forall i: nat | IsLastNamed(events, i) :: StoredAs(store, events[i].store.value)
  }

  lemma {:induction false} LastKnownIsLastStore(events: seq<Event>)
    ensures IsLastStore(LastKnown(events, StoreOf), events)
  {
    if events != [] {
      var n := |events| - 1;
      LastKnownIsLastStore(events[..n]);
      assert StoreOf(events[n]).Some? <==> NamesStore(events[n]);
      forall i: nat | IsLastNamed(events, i)
        ensures StoredAs(LastKnown(events, StoreOf), events[i].store.value)
      {
        if i < n { assert IsLastNamed(events[..n], i); }
      }
    }
  }

  /** In every run a user's row has the last store named by an event written for them, and none if none names any. */
  lemma StoreIsLastNamed(users: set<UserId>, steps: seq<Step>, user: UserId)
    requires Written(users, steps, user) != []
    ensures user in Run(users, steps).db.entitlements
    ensures IsLastStore(Run(users, steps).db.entitlements[user].store, Written(users, steps, user))
  {
    RowIsLastWritten(users, steps, user);
    LastKnownIsLastStore(Written(users, steps, user));
  }

  lemma AppliedNext(users: set<UserId>, events: seq<Event>, e: Event, user: UserId)
    ensures Applied(users, events + [e], user)
            == Applied(users, events, user) + AppliedBy(Delivered(users, events), users, e, user)
  {
    var longer := events + [e];
    assert longer[..|longer| - 1] == events && longer[|longer| - 1] == e;
  }

  /** The step writes for the user exactly what a delivery of the event it ends would apply. */
  lemma StepApplies(h: Hub, users: set<UserId>, step: Step, user: UserId)
    requires Admitted(h, users) && InTime(h, step)
    ensures var ending := Ending(h, users, step);
            WrittenBy(h, step, user) == if ending == [] then [] else AppliedBy(h.db, users, ending[0], user)
  {
  }

  lemma WrittenStep(h: Hub, users: set<UserId>, step: Step, log: seq<Event>, user: UserId)
    requires Admitted(h, users) && InTime(h, step) && h.db == Delivered(users, log)
    ensures Applied(users, log, user) + WrittenBy(h, step, user)
            == Applied(users, log + Ending(h, users, step), user)
  {
    var ending := Ending(h, users, step);
    StepApplies(h, users, step, user);
    if ending == [] {
      assert log + ending == log;
    } else {
      assert ending == [ending[0]];
      AppliedNext(users, log, ending[0], user);
    }
  }

  /** In order, what is written is what deliveries one at a time would apply. */
  lemma {:induction false} WrittenIsApplied(users: set<UserId>, steps: seq<Step>, user: UserId)
    requires Ordered(users, steps)
    ensures Written(users, steps, user) == Applied(users, Log(users, steps), user)
  {
    if steps != [] {
      var n := |steps| - 1;
      OrderedUpTo(users, steps, n);
      WrittenIsApplied(users, steps[..n], user);
      OrderedIsSerial(users, steps[..n]);
      RunAdmitted(users, steps[..n]);
      WrittenStep(Run(users, steps[..n]), users, steps[n], Log(users, steps[..n]), user);
    }
  }

  /** So with distinct timestamps those of the events written for a user strictly ascend. */
  lemma WrittenAscend(users: set<UserId>, steps: seq<Step>, user: UserId)
    requires Ordered(users, steps) && DistinctTimes(Log(users, steps))
    ensures Ascend(Written(users, steps, user))
  {
    WrittenIsApplied(users, steps, user);
    AppliedAscend(users, Log(users, steps), user);
  }

  /** Events were written in the order of their timestamps, or two that carry the same one. */
  ghost predicate NeverFall(events: seq<Event>) {
    forall i | 0 < i < |events| :: events[i - 1].timestamp <= events[i].timestamp
  }

  lemma AppendNeverFalls(events: seq<Event>, e: Event)
    ensures NeverFall(events + [e]) <==>
            NeverFall(events) && (events != [] ==> events[|events| - 1].timestamp <= e.timestamp)
  {
    var longer := events + [e];
    if NeverFall(longer) {
      forall i | 0 < i < |events|
        ensures events[i - 1].timestamp <= events[i].timestamp
      {
        assert longer[i - 1].timestamp <= longer[i].timestamp;
      }
      if events != [] { assert longer[|events| - 1].timestamp <= longer[|events|].timestamp; }
    }
  }

  ghost predicate AllNeverFall(users: set<UserId>, steps: seq<Step>) {
    forall user :: NeverFall(Written(users, steps, user))
  }

  lemma OneMoreStep(users: set<UserId>, steps: seq<Step>)
    requires steps != []
    ensures AllNeverFall(users, steps) <==>
            AllNeverFall(users, steps[..|steps| - 1]) && InTime(Run(users, steps[..|steps| - 1]), steps[|steps| - 1])
  {
    var n := |steps| - 1;
    var h := Run(users, steps[..n]);
    forall user
      ensures NeverFall(Written(users, steps, user)) <==>
              && NeverFall(Written(users, steps[..n], user))
              && (WrittenBy(h, steps[n], user) != [] ==> InTime(h, steps[n]))
    {
      var before, more := Written(users, steps[..n], user), WrittenBy(h, steps[n], user);
      RowIsLastWritten(users, steps[..n], user);
      if more == [] {
        assert before + more == before;
      } else {
        AppendNeverFalls(before, more[0]);
      }
    }
    if !InTime(h, steps[n]) {
      var user := h.open[steps[n].ticket].user;
      assert WrittenBy(h, steps[n], user) != [];
    }
  }

  /** A run's writes are in time if and only if, for every user, the written events' timestamps never fall. */
  lemma {:induction false} OrderedIffWrittenAscend(users: set<UserId>, steps: seq<Step>)
    ensures Ordered(users, steps) <==> AllNeverFall(users, steps)
  {
    if steps != [] {
      var n := |steps| - 1;
      OrderedIffWrittenAscend(users, steps[..n]);
      OneMoreStep(users, steps);
      OrderedNext(users, steps);
    }
  }

  lemma OrderedNext(users: set<UserId>, steps: seq<Step>)
    requires steps != []
    ensures Ordered(users, steps) <==>
            Ordered(users, steps[..|steps| - 1]) && InTime(Run(users, steps[..|steps| - 1]), steps[|steps| - 1])
  {
    var n := |steps| - 1;
    if Ordered(users, steps) { OrderedUpTo(users, steps, |steps| - 1); }
    if Ordered(users, steps[..n]) && InTime(Run(users, steps[..n]), steps[n]) {
      forall i | 0 <= i < |steps|
        ensures InTime(Run(users, steps[..i]), steps[i])
      {
        if i < n {
          assert InTime(Run(users, steps[..n][..i]), steps[..n][i]);
          assert steps[..n][..i] == steps[..i];
        }
      }
    }
  }

  /** Two deliveries of one user read before either writes; the newer writes first. */
  function Crossing(older: Event, newer: Event): seq<Step> {
    [Read(0, older), Read(1, newer), Write(1), Write(0)]
  }

  lemma BothRead(users: set<UserId>, user: UserId, older: Event, newer: Event, steps: seq<Step>)
    requires |steps| >= 2 && steps[0] == Read(0, older) && steps[1] == Read(1, newer)
    requires user in users && Concerns(older, user) && Concerns(newer, user) && older.id != newer.id
    ensures Run(users, steps[..2])
            == Hub(EMPTY.db, map[0 := Open(older, user, EventState(older.kind).value),
                                 1 := Open(newer, user, EventState(newer.kind).value)])
  {
    assert steps[..2][..1] == steps[..1] && steps[..1][..0] == [];
    assert Run(users, []) == EMPTY;
    var one := Hub(EMPTY.db, map[0 := Open(older, user, EventState(older.kind).value)]);
    assert Run(users, steps[..1]) == one;
    assert Enters(one, steps[1]);
  }

  /**
   * The condition can fail: in this run from empty tables the older event is left in the row,
   * though the newer ended as well.
   */
  lemma CrossingLosesLatest(users: set<UserId>, user: UserId, older: Event, newer: Event)
    requires user in users && Concerns(older, user) && Concerns(newer, user)
    requires older.id != newer.id && older.timestamp < newer.timestamp
    ensures var steps := Crossing(older, newer);
            && Log(users, steps) == [newer, older]
            && user in Run(users, steps).db.entitlements && StateFrom(Run(users, steps).db.entitlements[user], older)
            && !Follows(Run(users, steps).db, Log(users, steps), user)
  {
    var steps := Crossing(older, newer);
    BothRead(users, user, older, newer, steps);
    assert steps[..3][..2] == steps[..2] && steps[..2][..1] == steps[..1] && steps[..1][..0] == [];
    assert steps[..4] == steps && steps[..4][..3] == steps[..3];
    assert Log(users, []) == [] && Log(users, steps[..1]) == [] && Log(users, steps[..2]) == [];
    assert Log(users, steps[..3]) == [newer];
    assert Log(users, steps) == [newer] + [older];
    assert newer in Log(users, steps);
  }
}
