/**
 * What the entitlements row and the usage counter mean for a user: app/services/entitlements/resolver.py
 * and app/services/metering/signal.py.
 */
module Entitlements {
  import opened Prelude
  import opened Converter
  import opened Expenses
  import opened PushValidation
  import opened Machine
  import opened Metering
  import O = Overlap
  import W = Webhooks

  datatype Effective = Effective(tier: W.Tier, status: W.Status, isPro: bool)

  predicate RetainsAccess(status: W.Status) { status.Active? || status.InGrace? || status.Cancelled? }

  /** current_period_end is kept in milliseconds, the clock in microseconds. */
  predicate NotLapsed(row: W.Entitlement, now: Timestamp) {
    row.periodEnd.None? || row.periodEnd.value * 1000 > now
  }

  function ResolveEntitlement(row: Option<W.Entitlement>, now: Timestamp): Effective {
    match row
    case None => Effective(W.Free, W.Active, false)
    case Some(r) => Effective(r.tier, r.status, r.tier.Pro? && RetainsAccess(r.status) && NotLapsed(r, now))
  }

  datatype Signal = Signal(tier: W.Tier, status: W.Status, period: Period, used: nat, quota: Option<int>,
                           overQuota: bool)

  /** quota is the configured free monthly quota. */
  function BuildSignal(row: Option<W.Entitlement>, usage: Usage, user: UserId, period: Period, now: Timestamp,
                       quota: int): Signal
  {
    var effective, used := ResolveEntitlement(row, now), UsageCount(usage, user, period);
    if effective.isPro then Signal(effective.tier, effective.status, period, used, None, false)
    else Signal(effective.tier, effective.status, period, used, Some(quota), used >= quota)
  }

  // ----- access follows the deliveries ---------------------------------------------------------------------

  /** Event types that grant access all leave a status that keeps it. */
  lemma ProStatesRetainAccess(kind: W.Kind)
    ensures W.EventState(kind).Some? && W.EventState(kind).value.tier.Pro?
            ==> RetainsAccess(W.EventState(kind).value.status)
  {
  }

  /**
   * However deliveries overlap, as long as no write finds a newer watermark: the user is pro exactly
   * when the latest event that concerns them is not an expiration and the period has not lapsed;
   * and when that event carries the period end, nothing else about the deliveries matters.
   */
  lemma AccessFollowsLatest(users: set<UserId>, steps: seq<O.Step>, user: UserId, e: W.Event, now: Timestamp)
    requires O.Ordered(users, steps) && user in users
    requires var log := O.Log(users, steps); W.IdsIdentify(log) && W.DistinctTimes(log) && W.IsLatest(log, user, e)
    ensures var row := W.Lookup(O.Run(users, steps).db, user);
            && row.Some?
            && (ResolveEntitlement(row, now).isPro <==> !e.kind.Expiration? && NotLapsed(row.value, now))
            && (e.expirationAt.Some? ==>
                  (ResolveEntitlement(row, now).isPro <==> !e.kind.Expiration? && e.expirationAt.value * 1000 > now))
  {
    O.OverlappingLatestCarries(users, steps, user, e);
    AccessOfState(O.Run(users, steps).db.entitlements[user], e, now);
  }

  lemma AccessOfState(row: W.Entitlement, e: W.Event, now: Timestamp)
    requires W.StateFrom(row, e) && (W.PeriodEndOf(e).Some? ==> row.periodEnd == W.PeriodEndOf(e))
    ensures ResolveEntitlement(Some(row), now).isPro <==> !e.kind.Expiration? && NotLapsed(row, now)
    ensures e.expirationAt.Some? ==>
              (ResolveEntitlement(Some(row), now).isPro <==> !e.kind.Expiration? && e.expirationAt.value * 1000 > now)
  {
    ProStatesRetainAccess(e.kind);
  }

  /** A user no delivered event concerned is free. */
  lemma NoEventNoAccess(users: set<UserId>, steps: seq<O.Step>, user: UserId, now: Timestamp)
    requires !W.SomeConcern(O.Log(users, steps), user)
    ensures ResolveEntitlement(W.Lookup(O.Run(users, steps).db, user), now) == Effective(W.Free, W.Active, false)
  {
    O.RowIsLastWritten(users, steps, user);
    if O.Written(users, steps, user) != [] { O.WrittenConcerns(users, steps, user, 0); }
  }

  // ----- what the client is told ---------------------------------------------------------------------------

  /** The stored tier and status as they are; pro access unless free, expired, or past the period end. */
  lemma ResolvedExact(row: W.Entitlement, now: Timestamp)
    ensures var effective := ResolveEntitlement(Some(row), now);
            && effective.tier == row.tier && effective.status == row.status
            && (effective.isPro <==> row.tier != W.Free && row.status != W.Expired
                                     && (row.periodEnd.Some? ==> now < row.periodEnd.value * 1000))
  {
  }

  /** The user's rows inserted in the period, and whether they reach the quota, which does not bind a pro user. */
  ghost predicate Tells(signal: Signal, db: Tables, landed: map<ExpenseId, Period>, user: UserId, period: Period,
                        quota: int, pro: bool)
  {
    && signal.period == period && signal.used == |LandedIn(db.rows, landed, user, period)|
    && signal.quota == (if pro then None else Some(quota))
    && (signal.overQuota <==> !pro && |LandedIn(db.rows, landed, user, period)| >= quota)
  }

  /**
   * After any run of the machine, and any overlapping deliveries in order, the signal reports the
   * latest event's tier and status and counts the rows that were inserted in the period.
   */
  lemma SignalAfterEvent(base: map<UserId, Currency>, devices: Devices, steps: seq<Step>, users: set<UserId>,
                         deliveries: seq<O.Step>, user: UserId, e: W.Event, period: Period, now: Timestamp, quota: int)
    requires O.Ordered(users, deliveries) && user in users
    requires var log := O.Log(users, deliveries);
             W.IdsIdentify(log) && W.DistinctTimes(log) && W.IsLatest(log, user, e)
    ensures user in O.Run(users, deliveries).db.entitlements
    ensures var db, row := Run(Initial(base), devices, steps).db, O.Run(users, deliveries).db.entitlements[user];
            var signal := BuildSignal(Some(row), db.usage, user, period, now, quota);
            && (signal.tier == W.Free <==> e.kind.Expiration?) && (signal.status == W.Expired <==> e.kind.Expiration?)
            && (signal.status == W.Cancelled <==> e.kind.Cancellation?)
            && (signal.status == W.InGrace <==> e.kind.BillingIssue?)
            && Tells(signal, db, Landed(Initial(base), devices, steps), user, period, quota,
                     !e.kind.Expiration? && (row.periodEnd.Some? ==> now < row.periodEnd.value * 1000))
  {
    O.LatestEventDecides(users, deliveries, user, e);
    ResolvedExact(O.Run(users, deliveries).db.entitlements[user], now);
    RowsCountWhereTheyLand(base, devices, steps);
  }

  /** Without an event that concerns the user it says free and active. */
  lemma SignalWithoutEvent(base: map<UserId, Currency>, devices: Devices, steps: seq<Step>, users: set<UserId>,
                           deliveries: seq<O.Step>, user: UserId, period: Period, now: Timestamp, quota: int)
    requires !W.SomeConcern(O.Log(users, deliveries), user)
    ensures var db := Run(Initial(base), devices, steps).db;
            var signal := BuildSignal(W.Lookup(O.Run(users, deliveries).db, user), db.usage, user, period, now, quota);
            && signal.tier == W.Free && signal.status == W.Active
            && Tells(signal, db, Landed(Initial(base), devices, steps), user, period, quota, false)
  {
    NoEventNoAccess(users, deliveries, user, now);
    RowsCountWhereTheyLand(base, devices, steps);
  }

  // ----- over quota stays over quota -------------------------------------------------------------------------

  lemma ProOnlyLapses(row: Option<W.Entitlement>, now: Timestamp, later: Timestamp)
    requires now <= later
    ensures ResolveEntitlement(row, later).isPro ==> ResolveEntitlement(row, now).isPro
  {
  }

  /** None of the deliveries, overlapping as they may, writes the user's entitlement. */
  ghost predicate Quiet(h: O.Hub, users: set<UserId>, steps: seq<O.Step>, user: UserId) {
    forall i | 0 <= i < |steps| :: O.WrittenBy(O.RunFrom(h, users, steps[..i]), steps[i], user) == []
  }

  lemma {:induction false} QuietKeepsRow(h: O.Hub, users: set<UserId>, steps: seq<O.Step>, user: UserId)
    requires Quiet(h, users, steps, user)
    ensures W.Lookup(O.RunFrom(h, users, steps).db, user) == W.Lookup(h.db, user)
  {
    if steps != [] {
      var n := |steps| - 1;
      forall i | 0 <= i < n
        ensures steps[..n][i] == steps[i] && steps[..n][..i] == steps[..i]
      {
      }
      QuietKeepsRow(h, users, steps[..n], user);
      O.OnlyWritesChange(O.RunFrom(h, users, steps[..n]), users, steps[n], user);
    }
  }

  /**
   * Once over quota, a user stays over quota for the period: through any pushes and sweeps, at any
   * later time, and through any deliveries that do not write their entitlement.
   */
  lemma OverQuotaPersists(m: System, devices: Devices, steps: seq<Step>, h: O.Hub, users: set<UserId>,
                          deliveries: seq<O.Step>, user: UserId, period: Period, now: Timestamp, later: Timestamp,
                          quota: int)
    requires now <= later && Quiet(h, users, deliveries, user)
    requires BuildSignal(W.Lookup(h.db, user), m.db.usage, user, period, now, quota).overQuota
    ensures BuildSignal(W.Lookup(O.RunFrom(h, users, deliveries).db, user), Run(m, devices, steps).db.usage,
                        user, period, later, quota).overQuota
  {
    UsageNeverFalls(m, devices, steps, user, period);
    QuietKeepsRow(h, users, deliveries, user);
    ProOnlyLapses(W.Lookup(h.db, user), now, later);
  }
}
