/**
 * app/api/v1/webhooks.py: billing events, delivered in any order and any number of times, folded
 * into one entitlements row per user. The histories here are of deliveries one at a time; Overlap
 * has those that interleave.
 */
module Webhooks {
  import opened Prelude

  type EventId = nat
  type Millis = int

  datatype Tier = Free | Pro

  datatype Status = Active | Expired | InGrace | Cancelled

  datatype Store = AppStore | PlayStore | Stripe

  /** event.type: those the handler knows, and any other. */
  datatype Kind =
    | InitialPurchase | Renewal | ProductChange | Uncancellation | Cancellation | BillingIssue | Expiration
    | OtherKind(name: string)

  /** event.store in upper case: those the handler knows, and any other. */
  datatype RawStore = RawAppStore | RawMacAppStore | RawPlayStore | RawStripe | OtherStore(name: string)

  /** user is app_user_id read as a UUID, if it is one. */
  datatype Event = Event(
    id: EventId,
    kind: Kind,
    appUserId: string,
    user: Option<UserId>,
    timestamp: Millis,
    productId: Option<string>,
    store: Option<RawStore>,
    expirationAt: Option<Millis>)

  datatype Entitlement = Entitlement(
    tier: Tier,
    status: Status,
    productId: Option<string>,
    store: Option<Store>,
    appUserId: string,
    periodEnd: Option<Millis>,
    lastEvent: Option<Millis>)

  /** processed_webhook_events, which keeps each event for audit, and entitlements. */
  datatype Ledger = Ledger(processed: map<EventId, Event>, entitlements: map<UserId, Entitlement>)

  datatype Outcome = AlreadyProcessed | IgnoredUnmappedUser | IgnoredStaleEvent | IgnoredUnhandledType | Processed

  datatype State = State(tier: Tier, status: Status)

  /** _EVENT_STATE: the state an event type puts a row into, if it puts it into any. */
  function EventState(kind: Kind): Option<State> {
    match kind
    case InitialPurchase | Renewal | ProductChange | Uncancellation => Some(State(Pro, Active))
    case Cancellation => Some(State(Pro, Cancelled))
    case BillingIssue => Some(State(Pro, InGrace))
    case Expiration => Some(State(Free, Expired))
    case OtherKind(_) => None
  }

  /** _STORE_MAP. */
  function ResolveStore(raw: Option<RawStore>): Option<Store> {
    match raw
    case Some(RawAppStore) | Some(RawMacAppStore) => Some(AppStore)
    case Some(RawPlayStore) => Some(PlayStore)
    case Some(RawStripe) => Some(Stripe)
    case Some(OtherStore(_)) | None => None
  }

  /** A value the event carries, or the one already known. */
  function Or<T>(carried: Option<T>, known: Option<T>): Option<T> { if carried.Some? then carried else known }

  /** INSERT ... ON CONFLICT (user_id) DO UPDATE: optional columns only when the event carries them. */
  function Transition(row: Option<Entitlement>, e: Event, s: State): Entitlement {
    var known := if row.Some? then row.value else Entitlement(s.tier, s.status, None, None, e.appUserId, None, None);
    Entitlement(s.tier, s.status, Or(e.productId, known.productId), Or(ResolveStore(e.store), known.store),
                e.appUserId, Or(e.expirationAt, known.periodEnd), Some(e.timestamp))
  }

  function Lookup(db: Ledger, user: UserId): Option<Entitlement> {
    if user in db.entitlements then Some(db.entitlements[user]) else None
  }

  predicate IsStale(row: Option<Entitlement>, e: Event) {
    row.Some? && row.value.lastEvent.Some? && e.timestamp < row.value.lastEvent.value
  }

  /** What a delivery decides from its reads: an answer, or a state to write for the user. */
  datatype Decision = Answer(outcome: Outcome) | Apply(user: UserId, state: State)

  function Decide(db: Ledger, users: set<UserId>, e: Event): Decision {
    if e.id in db.processed then Answer(AlreadyProcessed)
    else if e.user.None? || e.user.value !in users then Answer(IgnoredUnmappedUser)
    else if IsStale(Lookup(db, e.user.value), e) then Answer(IgnoredStaleEvent)
    else if EventState(e.kind).None? then Answer(IgnoredUnhandledType)
    else Apply(e.user.value, EventState(e.kind).value)
  }

  /** What it leaves when it commits. The upsert takes the row as it is by then, and has no condition on it. */
  function Committed(db: Ledger, e: Event, d: Decision): (Ledger, Outcome) {
    if d == Answer(AlreadyProcessed) then (db, AlreadyProcessed)
    else
      var recorded := db.(processed := db.processed[e.id := e]);
      match d
      case Answer(outcome) => (recorded, outcome)
      case Apply(user, state) =>
        var row := Transition(Lookup(db, user), e, state);
        (recorded.(entitlements := recorded.entitlements[user := row]), Processed)
  }

  /** A delivery that nothing interleaves. */
  function Deliver(db: Ledger, users: set<UserId>, e: Event): (Ledger, Outcome) {
    Committed(db, e, Decide(db, users, e))
  }

  class WebhookHandler {
    var processed: map<EventId, Event>
    var entitlements: map<UserId, Entitlement>
    const users: set<UserId>

    function Contents(): Ledger
      reads this
    {
      Ledger(processed, entitlements)
    }

    constructor (users: set<UserId>)
      ensures Contents() == Ledger(map[], map[]) && this.users == users
    {
      this.users := users;
      processed, entitlements := map[], map[];
    }

    method ApplyEntitlementTransition(user: UserId, e: Event, s: State)
      modifies this
      ensures processed == old(processed)
      ensures entitlements == old(entitlements)[user := Transition(Lookup(old(Contents()), user), e, s)]
    {
      var store := ResolveStore(e.store);
      if user !in entitlements {
        var inserted := Entitlement(s.tier, s.status, e.productId, store, e.appUserId, e.expirationAt,
            Some(e.timestamp));
        entitlements := entitlements[user := inserted];
      } else {
        var row := entitlements[user].(tier := s.tier, status := s.status, appUserId := e.appUserId);
        row := row.(lastEvent := Some(e.timestamp));
        if e.productId.Some? { row := row.(productId := e.productId); }
        if store.Some? { row := row.(store := store); }
        if e.expirationAt.Some? { row := row.(periodEnd := e.expirationAt); }
        entitlements := entitlements[user := row];
      }
    }

    /** The handler up to its last read. */
    method ReadDelivery(e: Event) returns (d: Decision)
      ensures d == Decide(Contents(), users, e)
    {
      if e.id in processed { return Answer(AlreadyProcessed); }
      if e.user.None? || e.user.value !in users { return Answer(IgnoredUnmappedUser); }
      var user := e.user.value;
      if user in entitlements {
        var last := entitlements[user].lastEvent;
        if last.Some? && e.timestamp < last.value { return Answer(IgnoredStaleEvent); }
      }
      var state := EventState(e.kind);
      if state.None? { return Answer(IgnoredUnhandledType); }
      return Apply(user, state.value);
    }

    /** The rest of it, to the commit; by then the tables may have changed. */
    method CommitDelivery(e: Event, d: Decision) returns (outcome: Outcome)
      modifies this
      ensures (Contents(), outcome) == Committed(old(Contents()), e, d)
    {
      if d == Answer(AlreadyProcessed) { return AlreadyProcessed; }
      processed := processed[e.id := e];
      match d {
        case Answer(answer) => return answer;
        case Apply(user, state) =>
          ApplyEntitlementTransition(user, e, state);
          return Processed;
      }
    }

    /** Both, with nothing in between. */
    method RevenueCatWebhook(e: Event) returns (outcome: Outcome)
      modifies this
      ensures (Contents(), outcome) == Deliver(old(Contents()), users, e)
    {
      var d := ReadDelivery(e);
      outcome := CommitDelivery(e, d);
    }
  }

  // ----- histories of deliveries ----------------------------------------------------------------------------

  function Delivered(users: set<UserId>, events: seq<Event>): Ledger {
    if events == [] then Ledger(map[], map[])
    else Deliver(Delivered(users, events[..|events| - 1]), users, events[|events| - 1]).0
  }

  /** What the i-th delivery was answered. */
  function OutcomeOf(users: set<UserId>, events: seq<Event>, i: nat): Outcome
    requires i < |events|
  {
    Deliver(Delivered(users, events[..i]), users, events[i]).1
  }

  /** An id always comes with the same event: redeliveries repeat, they do not change. */
  ghost predicate IdsIdentify(events: seq<Event>) {
    forall i, j | 0 <= i < j < |events| && events[i].id == events[j].id :: events[i] == events[j]
  }

  /** An event about this user, of a type the handler knows. */
  predicate Concerns(e: Event, user: UserId) { e.user == Some(user) && !e.kind.OtherKind? }

  ghost predicate SomeConcern(events: seq<Event>, user: UserId) { exists e :: e in events && Concerns(e, user) }

  /** No delivered event that concerns the user is newer. */
  ghost predicate IsLatest(events: seq<Event>, user: UserId, e: Event) {
    e in events && Concerns(e, user) && forall f | f in events && Concerns(f, user) :: f.timestamp <= e.timestamp
  }

  /** The row is in the state this event puts it into, and remembers its time. */
  ghost predicate StateFrom(row: Entitlement, e: Event) {
    && EventState(e.kind) == Some(State(row.tier, row.status))
    && row.lastEvent == Some(e.timestamp)
  }

  /** The row a history leaves: none without an event that concerns the user, else the state of a latest one. */
  ghost predicate Follows(db: Ledger, events: seq<Event>, user: UserId) {
    if user in db.entitlements
    then exists e :: IsLatest(events, user, e) && StateFrom(db.entitlements[user], e)
    else !SomeConcern(events, user)
  }

  ghost predicate RecordsIds(db: Ledger, events: seq<Event>) {
    && (forall e | e in events :: e.id in db.processed)
    && (forall id | id in db.processed :: db.processed[id] in events && db.processed[id].id == id)
  }

  lemma DeliverRecords(db: Ledger, users: set<UserId>, events: seq<Event>, e: Event)
    requires RecordsIds(db, events)
    ensures RecordsIds(Deliver(db, users, e).0, events + [e])
  {
    var db' := Deliver(db, users, e).0;
    assert db'.processed == if e.id in db.processed then db.processed else db.processed[e.id := e];
    forall id | id in db'.processed
      ensures db'.processed[id] in events + [e] && db'.processed[id].id == id
    {
      if id in db.processed { assert db'.processed[id] in events; }
    }
  }

  lemma {:induction false} ProcessedIds(users: set<UserId>, events: seq<Event>)
    ensures RecordsIds(Delivered(users, events), events)
  {
    if events != [] {
      var n := |events| - 1;
      ProcessedIds(users, events[..n]);
      assert events == events[..n] + [events[n]];
      DeliverRecords(Delivered(users, events[..n]), users, events[..n], events[n]);
    }
  }

  lemma DeliverFollows(db: Ledger, users: set<UserId>, events: seq<Event>, e: Event, user: UserId)
    requires Follows(db, events, user) && user in users
    requires e.id in db.processed ==> e in events
    ensures Follows(Deliver(db, users, e).0, events + [e], user)
  {
    var db' := Deliver(db, users, e).0;
    assert forall f :: f in events + [e] <==> f in events || f == e;
    if user in db.entitlements {
      var top :| IsLatest(events, user, top) && StateFrom(db.entitlements[user], top);
      if db'.entitlements[user] == db.entitlements[user] {
        assert IsLatest(events + [e], user, top);
      } else {
        assert IsLatest(events + [e], user, e);
      }
    } else if user in db'.entitlements {
      assert IsLatest(events + [e], user, e);
    }
  }

  /** After any deliveries, in any order and with any redeliveries, a user's row is in the state of a latest event. */
  lemma {:induction false} LatestEventWins(users: set<UserId>, events: seq<Event>, user: UserId)
    requires IdsIdentify(events) && user in users
    ensures Follows(Delivered(users, events), events, user)
  {
    if events != [] {
      var n := |events| - 1;
      LatestEventWins(users, events[..n], user);
      ProcessedIds(users, events[..n]);
      assert events == events[..n] + [events[n]];
      DeliverFollows(Delivered(users, events[..n]), users, events[..n], events[n], user);
    }
  }

  ghost predicate DistinctTimes(events: seq<Event>) {
    forall e, f | e in events && f in events && e.id != f.id :: e.timestamp != f.timestamp
  }

  ghost predicate SameState(a: Option<Entitlement>, b: Option<Entitlement>) {
    a.Some? == b.Some?
    && (a.Some? ==>
          && a.value.tier == b.value.tier && a.value.status == b.value.status
          && a.value.lastEvent == b.value.lastEvent)
  }

  /** Two deliveries of the same events, reordered and repeated in any way, leave every user in the same state. */
  lemma DeliveriesConverge(users: set<UserId>, a: seq<Event>, b: seq<Event>, user: UserId)
    requires IdsIdentify(a) && IdsIdentify(b) && DistinctTimes(a) && user in users
    requires forall e :: e in a <==> e in b
    ensures SameState(Lookup(Delivered(users, a), user), Lookup(Delivered(users, b), user))
  {
    LatestEventWins(users, a, user);
    LatestEventWins(users, b, user);
    var x, y := Lookup(Delivered(users, a), user), Lookup(Delivered(users, b), user);
    if x.Some? && y.Some? {
      var e :| IsLatest(a, user, e) && StateFrom(x.value, e);
      var f :| IsLatest(b, user, f) && StateFrom(y.value, f);
      SameEvent(a, e, f);
    }
  }

  lemma SameEvent(events: seq<Event>, e: Event, f: Event)
    requires IdsIdentify(events) && DistinctTimes(events) && e in events && f in events && e.timestamp == f.timestamp
    ensures e == f
  {
    var i :| 0 <= i < |events| && events[i] == e;
    var j :| 0 <= j < |events| && events[j] == f;
    assert events[i].id == events[j].id;
  }

  // ----- outcomes ---------------------------------------------------------------------------------------------

  ghost predicate Seen(before: seq<Event>, id: EventId) { exists f :: f in before && f.id == id }

  ghost predicate NewerSeen(before: seq<Event>, user: UserId, timestamp: Millis) {
    exists f :: f in before && Concerns(f, user) && timestamp < f.timestamp
  }

  /** The answer a delivery is owed, from the deliveries before it alone. */
  ghost function OwedOutcome(users: set<UserId>, before: seq<Event>, e: Event): Outcome {
    if Seen(before, e.id) then AlreadyProcessed
    else if e.user.None? || e.user.value !in users then IgnoredUnmappedUser
    else if NewerSeen(before, e.user.value, e.timestamp) then IgnoredStaleEvent
    else if e.kind.OtherKind? then IgnoredUnhandledType
    else Processed
  }

  lemma SeenIff(db: Ledger, events: seq<Event>, id: EventId)
    requires RecordsIds(db, events)
    ensures id in db.processed <==> Seen(events, id)
  {
    if id in db.processed { assert db.processed[id] in events; }
  }

  lemma StaleIff(db: Ledger, events: seq<Event>, user: UserId, e: Event)
    requires Follows(db, events, user)
    ensures IsStale(Lookup(db, user), e) <==> NewerSeen(events, user, e.timestamp)
  {
    if user in db.entitlements {
      var top :| IsLatest(events, user, top) && StateFrom(db.entitlements[user], top);
      assert top in events && Concerns(top, user);
    }
  }

  /**
   * Every delivery is answered as owed: a duplicate if its id came before, stale if a newer event
   * that concerns its user did, whatever became of those events.
   */
  lemma OutcomeExact(users: set<UserId>, events: seq<Event>, i: nat)
    requires IdsIdentify(events) && i < |events|
    ensures OutcomeOf(users, events, i) == OwedOutcome(users, events[..i], events[i])
  {
    var before, e := events[..i], events[i];
    var db := Delivered(users, before);
    ProcessedIds(users, before);
    SeenIff(db, before, e.id);
    if e.user.Some? && e.user.value in users {
      LatestEventWins(users, before, e.user.value);
      StaleIff(db, before, e.user.value, e);
    }
  }

  /** A redelivery, and an event that does not concern the user, leave the user's row alone. */
  lemma OnlyProcessedChanges(db: Ledger, users: set<UserId>, e: Event, user: UserId)
    ensures var (db', outcome) := Deliver(db, users, e);
            && (outcome.AlreadyProcessed? ==> db' == db)
            && (!(outcome.Processed? && Concerns(e, user)) ==> Lookup(db', user) == Lookup(db, user))
  {
  }

  // ----- the optional columns --------------------------------------------------------------------------------

  /** The deliveries that changed the user's row, in order. */
  function Applied(users: set<UserId>, events: seq<Event>, user: UserId): seq<Event> {
    if events == [] then []
    else
      var n := |events| - 1;
      Applied(users, events[..n], user) + AppliedBy(Delivered(users, events[..n]), users, events[n], user)
  }

  function ProductOf(e: Event): Option<string> { e.productId }

  function StoreOf(e: Event): Option<Store> { ResolveStore(e.store) }

  function PeriodEndOf(e: Event): Option<Millis> { e.expirationAt }

  function LastKnown<T>(events: seq<Event>, column: Event -> Option<T>): Option<T> {
    if events == [] then None else Or(column(events[|events| - 1]), LastKnown(events[..|events| - 1], column))
  }

  ghost predicate IsLastCarried<T(!new)>(events: seq<Event>, column: Event -> Option<T>, i: nat) {
    && i < |events| && column(events[i]).Some?
    && forall j | i < j < |events| :: column(events[j]).None?
  }

  /** It is the last value the events carry, and none only when none carries any. */
  lemma {:induction false} LastKnownIsLast<T(!new)>(events: seq<Event>, column: Event -> Option<T>)
    ensures LastKnown(events, column).None? ==> forall i | 0 <= i < |events| :: column(events[i]).None?
    ensures forall i: nat | IsLastCarried(events, column, i) :: LastKnown(events, column) == column(events[i])
  {
    if events != [] {
      var n := |events| - 1;
      LastKnownIsLast(events[..n], column);
      forall i: nat | IsLastCarried(events, column, i)
        ensures LastKnown(events, column) == column(events[i])
      {
        if i < n { assert IsLastCarried(events[..n], column, i); }
      }
    }
  }

  /** The whole row, from the events that were applied. */
  ghost predicate RowOf(row: Option<Entitlement>, applied: seq<Event>) {
    if applied == [] then row == None
    else
      var last := applied[|applied| - 1];
      && row.Some? && StateFrom(row.value, last) && row.value.appUserId == last.appUserId
      && row.value.productId == LastKnown(applied, ProductOf)
      && row.value.store == LastKnown(applied, StoreOf)
      && row.value.periodEnd == LastKnown(applied, PeriodEndOf)
  }

  lemma TransitionRow(row: Option<Entitlement>, applied: seq<Event>, e: Event)
    requires RowOf(row, applied) && EventState(e.kind).Some?
    ensures RowOf(Some(Transition(row, e, EventState(e.kind).value)), applied + [e])
  {
    var longer := applied + [e];
    assert longer[..|longer| - 1] == applied && longer[|longer| - 1] == e;
    assert LastKnown(longer, ProductOf) == Or(ProductOf(e), LastKnown(applied, ProductOf));
    assert LastKnown(longer, StoreOf) == Or(StoreOf(e), LastKnown(applied, StoreOf));
    assert LastKnown(longer, PeriodEndOf) == Or(PeriodEndOf(e), LastKnown(applied, PeriodEndOf));
  }

  /** The event, if its delivery changed the user's row. */
  function AppliedBy(db: Ledger, users: set<UserId>, e: Event, user: UserId): seq<Event> {
    if Concerns(e, user) && Deliver(db, users, e).1.Processed? then [e] else []
  }

  lemma DeliverRow(db: Ledger, users: set<UserId>, applied: seq<Event>, e: Event, user: UserId)
    requires RowOf(Lookup(db, user), applied)
    ensures RowOf(Lookup(Deliver(db, users, e).0, user), applied + AppliedBy(db, users, e, user))
  {
    OnlyProcessedChanges(db, users, e, user);
    if AppliedBy(db, users, e, user) == [] {
      assert applied + [] == applied;
    } else {
      TransitionRow(Lookup(db, user), applied, e);
    }
  }

  /**
   * The row is the last applied event's state and application id, with the last product, store and
   * period end that any applied event carried.
   */
  lemma {:induction false} RowIsLastKnown(users: set<UserId>, events: seq<Event>, user: UserId)
    ensures RowOf(Lookup(Delivered(users, events), user), Applied(users, events, user))
  {
    if events != [] {
      var n := |events| - 1;
      RowIsLastKnown(users, events[..n], user);
      DeliverRow(Delivered(users, events[..n]), users, Applied(users, events[..n], user), events[n], user);
    }
  }

  lemma {:induction false} AppliedWasDelivered(users: set<UserId>, events: seq<Event>, user: UserId, e: Event)
    requires e in Applied(users, events, user)
    ensures e in events
  {
    var n := |events| - 1;
    if e in Applied(users, events[..n], user) { AppliedWasDelivered(users, events[..n], user, e); }
    assert events == events[..n] + [events[n]];
  }

  /** An event just applied is none of those applied before. */
  lemma NewlyApplied(users: set<UserId>, events: seq<Event>, user: UserId, e: Event, f: Event)
    requires f in Applied(users, events, user) && e.id !in Delivered(users, events).processed
    ensures f in events && f.id != e.id
  {
    ProcessedIds(users, events);
    AppliedWasDelivered(users, events, user, f);
  }

  /** And it is no older than the last of them. */
  lemma AppliedIsNotOlder(users: set<UserId>, events: seq<Event>, user: UserId, e: Event)
    requires Applied(users, events, user) != [] && Concerns(e, user)
    requires Deliver(Delivered(users, events), users, e).1.Processed?
    ensures var applied := Applied(users, events, user); applied[|applied| - 1].timestamp <= e.timestamp
    ensures e.id !in Delivered(users, events).processed
  {
    RowIsLastKnown(users, events, user);
  }

  ghost predicate Ascend(events: seq<Event>) {
    forall i, j | 0 <= i < j < |events| :: events[i].timestamp < events[j].timestamp
  }

  lemma AppendAscends(events: seq<Event>, e: Event)
    requires Ascend(events) && (events != [] ==> events[|events| - 1].timestamp < e.timestamp)
    ensures Ascend(events + [e])
  {
  }

  lemma NewlyAppliedIsLater(users: set<UserId>, events: seq<Event>, user: UserId, e: Event)
    requires DistinctTimes(events + [e]) && Concerns(e, user)
             && Deliver(Delivered(users, events), users, e).1.Processed?
    ensures var applied := Applied(users, events, user);
            applied != [] ==> applied[|applied| - 1].timestamp < e.timestamp
  {
    var applied := Applied(users, events, user);
    if applied != [] {
      var last := applied[|applied| - 1];
      AppliedIsNotOlder(users, events, user, e);
      NewlyApplied(users, events, user, e, last);
      assert last in events + [e] && e in events + [e];
    }
  }

  /** With distinct timestamps the applied events' strictly ascend. */
  lemma {:induction false} AppliedAscend(users: set<UserId>, events: seq<Event>, user: UserId)
    requires DistinctTimes(events)
    ensures Ascend(Applied(users, events, user))
  {
    if events != [] {
      var n := |events| - 1;
      PrefixHasDistinctTimes(events);
      AppliedAscend(users, events[..n], user);
      assert events[..n] + [events[n]] == events;
      if Concerns(events[n], user) && Deliver(Delivered(users, events[..n]), users, events[n]).1.Processed? {
        NewlyAppliedIsLater(users, events[..n], user, events[n]);
        AppendAscends(Applied(users, events[..n], user), events[n]);
      }
    }
  }

  lemma PrefixHasDistinctTimes(events: seq<Event>)
    requires DistinctTimes(events) && events != []
    ensures DistinctTimes(events[..|events| - 1])
    ensures forall e | e in events[..|events| - 1] :: e in events
  {
  }

  /** A column the latest event carries does not depend on the order of delivery either. */
  lemma LatestCarries(users: set<UserId>, events: seq<Event>, user: UserId, e: Event)
    requires IdsIdentify(events) && DistinctTimes(events) && user in users && IsLatest(events, user, e)
    ensures user in Delivered(users, events).entitlements
    ensures var row := Delivered(users, events).entitlements[user];
            && StateFrom(row, e) && row.appUserId == e.appUserId
            && (ProductOf(e).Some? ==> row.productId == ProductOf(e))
            && (StoreOf(e).Some? ==> row.store == StoreOf(e))
            && (PeriodEndOf(e).Some? ==> row.periodEnd == PeriodEndOf(e))
  {
    var db, applied := Delivered(users, events), Applied(users, events, user);
    LatestEventWins(users, events, user);
    RowIsLastKnown(users, events, user);
    assert SomeConcern(events, user);
    var top :| IsLatest(events, user, top) && StateFrom(db.entitlements[user], top);
    SameEvent(events, e, top);
    var last := applied[|applied| - 1];
    AppliedWasDelivered(users, events, user, last);
    SameEvent(events, e, last);
  }

  lemma LatestStays(db: Ledger, users: set<UserId>, user: UserId, e: Event, f: Event)
    requires user in db.entitlements && db.entitlements[user].lastEvent == Some(e.timestamp) && e.id in db.processed
    requires Concerns(f, user) ==> f.id == e.id || f.timestamp < e.timestamp
    ensures var db' := Deliver(db, users, f).0; Lookup(db', user) == Lookup(db, user) && e.id in db'.processed
  {
  }

  lemma {:induction false} LatestFirstStays(users: set<UserId>, events: seq<Event>, user: UserId, n: nat)
    requires DistinctTimes(events) && user in users && 0 < n <= |events| && IsLatest(events, user, events[0])
    ensures var db := Delivered(users, events[..n]);
            && events[0].id in db.processed
            && Lookup(db, user) == Some(Transition(None, events[0], EventState(events[0].kind).value))
  {
    var e, f := events[0], events[n - 1];
    assert events[..n][..n - 1] == events[..n - 1];
    if n == 1 {
      assert Delivered(users, events[..0]) == Ledger(map[], map[]);
    } else {
      LatestFirstStays(users, events, user, n - 1);
      assert f in events && e in events;
      LatestStays(Delivered(users, events[..n - 1]), users, user, e, f);
    }
  }

  /** One it does not carry may: delivered first, the latest event keeps out what all the others carry. */
  lemma LatestFirstForgets(users: set<UserId>, events: seq<Event>, user: UserId)
    requires DistinctTimes(events) && user in users && events != [] && IsLatest(events, user, events[0])
    ensures Lookup(Delivered(users, events), user)
            == Some(Transition(None, events[0], EventState(events[0].kind).value))
  {
    LatestFirstStays(users, events, user, |events|);
    assert events[..|events|] == events;
  }

  lemma DeliverApplies(db: Ledger, users: set<UserId>, e: Event, user: UserId)
    requires Concerns(e, user) && user in users && e.id !in db.processed && !IsStale(Lookup(db, user), e)
    ensures var db' := Deliver(db, users, e).0;
            && Lookup(db', user) == Some(Transition(Lookup(db, user), e, EventState(e.kind).value))
            && db'.processed == db.processed[e.id := e]
  {
  }

  lemma TwoDeliveries(users: set<UserId>, first: Event, second: Event)
    ensures Delivered(users, [first, second]) == Deliver(Delivered(users, [first]), users, second).0
    ensures Delivered(users, [first]) == Deliver(Ledger(map[], map[]), users, first).0
  {
    assert [first, second][..1] == [first] && [first][..0] == [];
    assert Delivered(users, []) == Ledger(map[], map[]);
  }

  /** So the order of two deliveries decides whether the product is known. */
  lemma ProductDependsOnOrder(users: set<UserId>, user: UserId, older: Event, newer: Event)
    requires user in users && Concerns(older, user) && Concerns(newer, user)
    requires older.id != newer.id && older.timestamp < newer.timestamp
    requires older.productId.Some? && newer.productId.None?
    ensures user in Delivered(users, [older, newer]).entitlements
            && user in Delivered(users, [newer, older]).entitlements
    ensures Delivered(users, [older, newer]).entitlements[user].productId == older.productId
    ensures Delivered(users, [newer, older]).entitlements[user].productId == None
  {
    LatestFirstForgets(users, [newer, older], user);
    TwoDeliveries(users, older, newer);
    DeliverApplies(Ledger(map[], map[]), users, older, user);
    DeliverApplies(Delivered(users, [older]), users, newer, user);
  }
}
