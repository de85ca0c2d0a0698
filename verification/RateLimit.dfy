/**
 * app/services/ratelimit: the fixed-window counter of limiter.py, kept by one atomic script, and
 * the two windows dependency.py hits for every request, as a timed state machine. Times are
 * Redis's clock in milliseconds.
 */
module RateLimit {
  import opened Prelude

  type Millis = int

  datatype Scope = DeviceScope(device: DeviceId) | UserScope(user: UserId)

  /** rl:parse:{scope}:{window_seconds}. The endpoint is no part of it. */
  datatype Key = Key(scope: Scope, windowSeconds: nat)

  /** A stored counter; a key just created by INCR has no TTL yet. */
  datatype Counter = Counter(count: nat, expireAt: Option<Millis>)

  type Keys = map<Key, Counter>

  const MINUTE: nat := 60
  const DAY: nat := 86400

  // ----- the scope ----------------------------------------------------------------------------------

  /** header is the X-Device-Id header, if there is one and it parses. */
  function ResolveScope(header: Option<DeviceId>, user: UserId, devices: map<DeviceId, UserId>): Scope {
    if header.Some? && header.value in devices && devices[header.value] == user then DeviceScope(header.value)
    else UserScope(user)
  }

  /** The header names this device, and the user owns it. */
  predicate Names(header: Option<DeviceId>, user: UserId, devices: map<DeviceId, UserId>, d: DeviceId) {
    header == Some(d) && d in devices && devices[d] == user
  }

  /**
   * Two requests are counted together if and only if they are one user's and name the same device of
   * theirs, or none: no header, true or forged, lets one user spend another's limit.
   */
  lemma ScopesAreShared(h: Option<DeviceId>, u: UserId, k: Option<DeviceId>, v: UserId, devices: map<DeviceId, UserId>)
    ensures ResolveScope(h, u, devices) == ResolveScope(k, v, devices)
            <==> u == v && forall d :: Names(h, u, devices, d) <==> Names(k, v, devices, d)
  {
    if forall d :: Names(h, u, devices, d) <==> Names(k, v, devices, d) {
      if h.Some? { assert Names(h, u, devices, h.value) <==> Names(k, v, devices, h.value); }
      if k.Some? { assert Names(h, u, devices, k.value) <==> Names(k, v, devices, k.value); }
    }
  }

  // ----- the script ---------------------------------------------------------------------------------

  /** Redis drops a key once its clock is past the expiry. */
  predicate Live(keys: Keys, key: Key, now: Millis) {
    key in keys && (keys[key].expireAt.Some? ==> now <= keys[key].expireAt.value)
  }

  function Incr(keys: Keys, key: Key, now: Millis): Keys {
    keys[key := if Live(keys, key, now) then Counter(keys[key].count + 1, keys[key].expireAt) else Counter(1, None)]
  }

  function PExpire(keys: Keys, key: Key, ms: Millis, now: Millis): Keys {
    if key in keys then keys[key := keys[key].(expireAt := Some(now + ms))] else keys
  }

  function PTtl(keys: Keys, key: Key, now: Millis): Millis {
    if key !in keys then -2 else if keys[key].expireAt.None? then -1 else keys[key].expireAt.value - now
  }

  function Lifetime(key: Key): Millis { key.windowSeconds * 1000 }

  /** INCR, and PEXPIRE when that made the counter 1. */
  function AfterHit(keys: Keys, key: Key, now: Millis): Keys {
    var incremented := Incr(keys, key, now);
    if incremented[key].count == 1 then PExpire(incremented, key, Lifetime(key), now) else incremented
  }

  ghost predicate EveryKeyExpires(keys: Keys) {
    forall key | key in keys :: keys[key].count > 0 && keys[key].expireAt.Some?
  }

  /** A live counter goes up by one and keeps its expiry; any other starts at one, for one window. */
  lemma HitOutcome(keys: Keys, key: Key, now: Millis)
    requires EveryKeyExpires(keys)
    ensures var keys' := AfterHit(keys, key, now);
            && EveryKeyExpires(keys') && key in keys'
            && (forall other | other != key :: other in keys' <==> other in keys)
            && (forall other | other in keys && other != key :: keys'[other] == keys[other])
            && keys'[key] == (if Live(keys, key, now) then keys[key].(count := keys[key].count + 1)
                              else Counter(1, Some(now + 1000 * key.windowSeconds)))
  {
  }

  // ----- the two windows ------------------------------------------------------------------------------

  datatype Window = Window(seconds: nat, limit: int)

  datatype Decision = Decision(count: nat, ttlMs: Millis, limit: int)

  datatype Verdict = Admitted | Limited(retryAfter: int)

  function RetryAfter(ttlMs: Millis): int { Max(1, (ttlMs + 999) / 1000) }

  function WindowsOf(perMinute: int, perDay: int): seq<Window> { [Window(MINUTE, perMinute), Window(DAY, perDay)] }

  /** The first loop: every window is hit, whatever the others say. at[i] is the clock at the i-th script. */
  function HitAll(keys: Keys, scope: Scope, windows: seq<Window>, at: seq<Millis>): (r: (Keys, seq<Decision>))
    requires |windows| == |at|
    ensures |r.1| == |windows|
  {
    if windows == [] then (keys, [])
    else
      var n := |windows| - 1;
      var (before, decisions) := HitAll(keys, scope, windows[..n], at[..n]);
      var key := Key(scope, windows[n].seconds);
      var keys' := AfterHit(before, key, at[n]);
      (keys', decisions + [Decision(keys'[key].count, PTtl(keys', key, at[n]), windows[n].limit)])
  }

  /** The second loop: the first window over its limit decides. */
  function Decide(decisions: seq<Decision>): Verdict {
    if decisions == [] then Admitted
    else if decisions[0].count > decisions[0].limit then Limited(RetryAfter(decisions[0].ttlMs))
    else Decide(decisions[1..])
  }

  /** enforce_parse_rate_limit, with the clock at each of its two scripts. */
  function Enforced(keys: Keys, scope: Scope, perMinute: int, perDay: int, first: Millis, second: Millis)
    : (Keys, Verdict)
  {
    var (keys', decisions) := HitAll(keys, scope, WindowsOf(perMinute, perDay), [first, second]);
    (keys', Decide(decisions))
  }

  class RateLimiter {
    var keys: Keys

    ghost predicate Valid()
      reads this
    {
      EveryKeyExpires(keys)
    }

    constructor ()
      ensures Valid() && keys == map[]
    {
      keys := map[];
    }

    /** The script. No key is ever left without a TTL. */
    method Hit(key: Key, now: Millis) returns (count: nat, ttlMs: Millis)
      requires Valid()
      modifies this
      ensures Valid() && keys == AfterHit(old(keys), key, now)
      ensures count == keys[key].count && ttlMs == PTtl(keys, key, now)
    {
      HitOutcome(keys, key, now);
      keys := Incr(keys, key, now);
      count := keys[key].count;
      if count == 1 { keys := PExpire(keys, key, key.windowSeconds * 1000, now); }
      ttlMs := PTtl(keys, key, now);
    }

    /** Every window is hit, even when an earlier one is over its limit. */
    method HitWindows(scope: Scope, windows: seq<Window>, at: seq<Millis>) returns (decisions: seq<Decision>)
      requires Valid() && |at| == |windows|
      modifies this
      ensures Valid() && (keys, decisions) == HitAll(old(keys), scope, windows, at)
    {
      decisions := [];
      for i := 0 to |windows|
        invariant Valid() && (keys, decisions) == HitAll(old(keys), scope, windows[..i], at[..i])
      {
        assert windows[..i + 1][..i] == windows[..i] && at[..i + 1][..i] == at[..i];
        var count, ttlMs := Hit(Key(scope, windows[i].seconds), at[i]);
        decisions := decisions + [Decision(count, ttlMs, windows[i].limit)];
      }
      assert windows[..|windows|] == windows && at[..|at|] == at;
    }

    method EnforceParseRateLimit(scope: Scope, perMinute: int, perDay: int, first: Millis, second: Millis)
      returns (verdict: Verdict)
      requires Valid()
      modifies this
      ensures Valid()
      ensures (keys, verdict) == Enforced(old(keys), scope, perMinute, perDay, first, second)
    {
      var decisions := HitWindows(scope, WindowsOf(perMinute, perDay), [first, second]);
      for i := 0 to |decisions|
        invariant Decide(decisions) == Decide(decisions[i..])
      {
        if decisions[i].count > decisions[i].limit { return Limited(RetryAfter(decisions[i].ttlMs)); }
      }
      return Admitted;
    }
  }

  // ----- timed runs -------------------------------------------------------------------------------------

  /** One execution of the script, for some request. Scripts of different requests interleave. */
  datatype Event = Event(request: nat, key: Key, at: Millis)

  /** What it found: when the key's lifetime began, and the count it was answered. */
  datatype Entry = Entry(request: nat, key: Key, at: Millis, born: Millis, count: nat)

  datatype Trace = Trace(keys: Keys, log: seq<Entry>)

  function BornAt(keys: Keys, key: Key, now: Millis): Millis {
    if Live(keys, key, now) && keys[key].expireAt.Some? then keys[key].expireAt.value - Lifetime(key) else now
  }

  function Play(events: seq<Event>): Trace {
    if events == [] then Trace(map[], [])
    else
      var t, e := Play(events[..|events| - 1]), events[|events| - 1];
      var keys' := AfterHit(t.keys, e.key, e.at);
      Trace(keys', t.log + [Entry(e.request, e.key, e.at, BornAt(t.keys, e.key, e.at), keys'[e.key].count)])
  }

  /** Redis runs scripts one at a time, and its clock does not go back. */
  ghost predicate ClockAscends(events: seq<Event>) {
    forall i, j | 0 <= i < j < |events| :: events[i].at <= events[j].at
  }

  /**
   * What a logged hit has to do with the key's present lifetime: it is of that lifetime, or of one
   * a whole window earlier.
   */
  ghost predicate Accounted(keys: Keys, e: Entry) {
    && e.key in keys && keys[e.key].expireAt.Some?
    && e.born <= e.at <= e.born + Lifetime(e.key)
    && e.count > 0 && (e.count == 1 ==> e.at == e.born)
    && var end := keys[e.key].expireAt.value;
       || (e.born + Lifetime(e.key) == end && e.count <= keys[e.key].count)
       || e.born + 2 * Lifetime(e.key) < end
  }

  /** Two hits of one key: counted in order within a lifetime, and lifetimes more than a window apart. */
  ghost predicate InSequence(e: Entry, f: Entry) {
    e.key == f.key ==> (e.born == f.born && e.count < f.count) || e.born + Lifetime(e.key) < f.born
  }

  /** Every lifetime now on record had begun by then. */
  ghost predicate BegunBy(keys: Keys, now: Millis) {
    forall key | key in keys && keys[key].expireAt.Some? :: keys[key].expireAt.value - Lifetime(key) <= now
  }

  ghost predicate Sequenced(log: seq<Entry>) {
    forall i, j {:trigger InSequence(log[i], log[j])} | 0 <= i < j < |log| :: InSequence(log[i], log[j])
  }

  ghost predicate WellKept(t: Trace, now: Millis) {
    && EveryKeyExpires(t.keys) && BegunBy(t.keys, now)
    && (forall i | 0 <= i < |t.log| :: Accounted(t.keys, t.log[i]) && t.log[i].at <= now)
    && Sequenced(t.log)
  }

  ghost predicate IsLogOf(log: seq<Entry>, events: seq<Event>) {
    |log| == |events| && forall i | 0 <= i < |log| :: Event(log[i].request, log[i].key, log[i].at) == events[i]
  }

  lemma HitStaysAccounted(keys: Keys, e: Entry, f: Entry)
    requires EveryKeyExpires(keys) && Accounted(keys, e) && e.at <= f.at
    requires f.born == BornAt(keys, f.key, f.at) && f.count == AfterHit(keys, f.key, f.at)[f.key].count
    ensures Accounted(AfterHit(keys, f.key, f.at), e) && InSequence(e, f)
  {
    HitOutcome(keys, f.key, f.at);
  }

  lemma HitIsAccounted(keys: Keys, f: Entry)
    requires EveryKeyExpires(keys) && BegunBy(keys, f.at)
    requires f.born == BornAt(keys, f.key, f.at) && f.count == AfterHit(keys, f.key, f.at)[f.key].count
    ensures Accounted(AfterHit(keys, f.key, f.at), f) && BegunBy(AfterHit(keys, f.key, f.at), f.at)
  {
    HitOutcome(keys, f.key, f.at);
  }

  lemma {:induction false} PlayIsKept(events: seq<Event>, now: Millis)
    requires ClockAscends(events) && forall i | 0 <= i < |events| :: events[i].at <= now
    ensures WellKept(Play(events), now) && IsLogOf(Play(events).log, events)
  {
    if events != [] {
      var n := |events| - 1;
      var t, e, t' := Play(events[..n]), events[n], Play(events);
      PlayIsKept(events[..n], e.at);
      HitOutcome(t.keys, e.key, e.at);
      HitIsAccounted(t.keys, t'.log[n]);
      forall i | 0 <= i < n
        ensures Accounted(t'.keys, t'.log[i]) && InSequence(t'.log[i], t'.log[n])
      {
        HitStaysAccounted(t.keys, t.log[i], t'.log[n]);
      }
    }
  }

  // ----- counting ---------------------------------------------------------------------------------------

  /** The hits of one key in a closed stretch of time that were answered at most the limit. */
  function Passing(log: seq<Entry>, key: Key, limit: int, from: Millis, until: Millis): set<int> {
    set i | 0 <= i < |log| && log[i].key == key && log[i].count <= limit && from <= log[i].at <= until
  }

  ghost predicate Climbs(log: seq<Entry>, s: set<int>) {
    forall i, j | i in s && j in s && i < j :: 0 <= i < j < |log| && log[i].count < log[j].count
  }

  lemma {:induction false} ClimbIsShort(log: seq<Entry>, s: set<int>, low: int, high: int)
    requires forall i | i in s :: 0 <= i < |log| && low <= log[i].count <= high
    requires Climbs(log, s)
    ensures |s| <= Max(0, high - low + 1)
  {
    if s != {} {
      var top := MaxOf(s);
      forall i | i in s - {top}
        ensures 0 <= i < |log| && log[i].count <= log[top].count - 1
      {
      }
      ClimbIsShort(log, s - {top}, low, log[top].count - 1);
    }
  }

  /** What the bounds need of a log. */
  ghost predicate Regular(log: seq<Entry>) {
    && Sequenced(log)
    && (forall i {:trigger InLifetime(log[i])} | 0 <= i < |log| :: InLifetime(log[i]))
  }

  ghost predicate InLifetime(e: Entry) {
    e.born <= e.at <= e.born + Lifetime(e.key) && e.count > 0 && (e.count == 1 ==> e.at == e.born)
  }

  lemma PlayIsRegular(events: seq<Event>)
    requires ClockAscends(events)
    ensures Regular(Play(events).log) && IsLogOf(Play(events).log, events)
  {
    if events != [] {
      PlayIsKept(events, events[|events| - 1].at);
      forall i | 0 <= i < |Play(events).log|
        ensures InLifetime(Play(events).log[i])
      {
        assert Accounted(Play(events).keys, Play(events).log[i]);
      }
    }
  }

  /** The hits of one lifetime of a key that were answered at most the limit. */
  function PassingInLifetime(log: seq<Entry>, key: Key, limit: int, born: Millis): set<int> {
    set i | 0 <= i < |log| && log[i].key == key && log[i].born == born && log[i].count <= limit
  }

  /** One lifetime of a key lasts its window and passes at most `limit` hits. */
  lemma LifetimeBound(events: seq<Event>, key: Key, limit: int, born: Millis)
    requires ClockAscends(events)
    ensures |PassingInLifetime(Play(events).log, key, limit, born)| <= Max(0, limit)
    ensures var log := Play(events).log;
            forall i | 0 <= i < |log| && log[i].key == key && log[i].born == born ::
              born <= log[i].at <= born + 1000 * key.windowSeconds
  {
    var log := Play(events).log;
    PlayIsRegular(events);
    forall i | 0 <= i < |log| && log[i].key == key && log[i].born == born
      ensures born <= log[i].at <= born + 1000 * key.windowSeconds
    {
      assert InLifetime(log[i]);
    }
    LateIsShort(log, key, limit, born, PassingInLifetime(log, key, limit, born));
  }

  lemma LateIsShort(log: seq<Entry>, key: Key, limit: int, born: Millis, s: set<int>)
    requires Regular(log)
    requires forall i | i in s :: 0 <= i < |log| && log[i].key == key && log[i].born == born && log[i].count <= limit
    ensures |s| <= Max(0, limit)
  {
    forall i, j | i in s && j in s && i < j
      ensures log[i].count < log[j].count
    {
      assert InSequence(log[i], log[j]);
    }
    forall i | i in s
      ensures 1 <= log[i].count
    {
      assert InLifetime(log[i]);
    }
    ClimbIsShort(log, s, 1, limit);
  }

  /** A hit of an earlier lifetime than hit j's, in a stretch that reaches hit j, is not its lifetime's first. */
  lemma EarlierIsNotFirst(log: seq<Entry>, i: int, j: int, from: Millis)
    requires Regular(log) && 0 <= i < j < |log| && log[i].key == log[j].key && log[i].born != log[j].born
    requires from <= log[i].at && log[j].at <= from + Lifetime(log[j].key)
    ensures log[i].count >= 2
  {
    assert InSequence(log[i], log[j]) && InLifetime(log[i]) && InLifetime(log[j]);
  }

  /** And two such hits are of the same lifetime. */
  lemma EarlierClimbs(log: seq<Entry>, i: int, k: int, j: int, from: Millis)
    requires Regular(log) && 0 <= i < k < j < |log|
    requires log[i].key == log[k].key == log[j].key && log[k].born != log[j].born
    requires from <= log[i].at && log[j].at <= from + Lifetime(log[j].key)
    ensures log[i].count < log[k].count
  {
    assert InSequence(log[i], log[k]) && InSequence(log[k], log[j]);
    assert InLifetime(log[i]) && InLifetime(log[j]);
  }

  lemma EarlyIsShort(log: seq<Entry>, key: Key, limit: int, from: Millis, j: int, early: set<int>)
    requires Regular(log) && 0 <= j < |log| && log[j].key == key && log[j].at <= from + Lifetime(key)
    requires forall i | i in early :: 0 <= i < j && log[i].key == key && log[i].born != log[j].born
    requires forall i | i in early :: 0 <= i < |log| && from <= log[i].at && log[i].count <= limit
    ensures |early| <= Max(0, limit - 1)
  {
    forall i | i in early
      ensures log[i].count >= 2
    {
      EarlierIsNotFirst(log, i, j, from);
    }
    forall i, k | i in early && k in early && i < k
      ensures log[i].count < log[k].count
    {
      EarlierClimbs(log, i, k, j, from);
    }
    ClimbIsShort(log, early, 2, limit);
  }

  lemma UnionSize<T>(a: set<T>, b: set<T>)
    ensures |a + b| <= |a| + |b|
  {
    assert a + b == a + (b - a);
    SubsetSize(b - a, b);
  }

  lemma StretchIsShort(log: seq<Entry>, key: Key, limit: int, from: Millis, s: set<int>)
    requires Regular(log)
    requires forall i | i in s :: 0 <= i < |log| && log[i].key == key && log[i].count <= limit
    requires forall i | i in s :: 0 <= i < |log| && from <= log[i].at <= from + Lifetime(key)
    ensures |s| <= Max(0, 2 * limit - 1)
  {
    if s != {} {
      var j := MaxOf(s);
      var late := set i | i in s && log[i].born == log[j].born;
      var early := set i | i in s && log[i].born != log[j].born;
      assert InLifetime(log[j]);
      LateIsShort(log, key, limit, log[j].born, late);
      EarlyIsShort(log, key, limit, from, j, early);
      UnionSize(early, late);
      assert s == early + late;
    }
  }

  /**
   * Any closed stretch as long as the window passes at most 2 * limit - 1 hits: it meets at most two
   * lifetimes, and of the earlier one it misses at least the first hit.
   */
  lemma StretchBound(events: seq<Event>, key: Key, limit: int, from: Millis)
    requires ClockAscends(events)
    ensures |Passing(Play(events).log, key, limit, from, from + 1000 * key.windowSeconds)| <= Max(0, 2 * limit - 1)
  {
    PlayIsRegular(events);
    StretchIsShort(Play(events).log, key, limit, from,
        Passing(Play(events).log, key, limit, from, from + Lifetime(key)));
  }

  // ----- requests ----------------------------------------------------------------------------------------

  ghost predicate Passed(log: seq<Entry>, request: nat, key: Key, limit: int) {
    exists i :: 0 <= i < |log| && log[i].request == request && log[i].key == key && log[i].count <= limit
  }

  /** A request is let through when both its hits were answered at most their limits. */
  ghost predicate LetThrough(log: seq<Entry>, request: nat, scope: Scope, perMinute: int, perDay: int) {
    Passed(log, request, Key(scope, 60), perMinute) && Passed(log, request, Key(scope, 86400), perDay)
  }

  /** The requests let through that made one of these hits. */
  ghost function LetThroughBy(log: seq<Entry>, hits: set<int>, scope: Scope, perMinute: int, perDay: int): set<nat>
    requires forall i | i in hits :: 0 <= i < |log|
  {
    set i | i in hits && LetThrough(log, log[i].request, scope, perMinute, perDay) :: log[i].request
  }

  lemma {:induction false} ImageIsSmaller(log: seq<Entry>, s: set<int>, image: set<nat>)
    requires forall i | i in s :: 0 <= i < |log|
    requires forall r | r in image :: exists i :: i in s && log[i].request == r
    ensures |image| <= |s|
  {
    if image != {} {
      var r := Pick(image);
      var i :| i in s && log[i].request == r;
      var rest := set k | k in s && log[k].request != r;
      forall q | q in image - {r}
        ensures exists k :: k in rest && log[k].request == q
      {
        var k :| k in s && log[k].request == q;
        assert k in rest;
      }
      ImageIsSmaller(log, rest, image - {r});
      assert rest <= s - {i};
      SubsetSize(rest, s - {i});
    }
  }

  /** The requests let through at this key: in one of its lifetimes, and in a stretch of time. */
  ghost predicate WithinLimit(log: seq<Entry>, scope: Scope, perMinute: int, perDay: int, key: Key, limit: int,
                              born: Millis, from: Millis, until: Millis)
  {
    && |LetThroughBy(log, PassingInLifetime(log, key, limit, born), scope, perMinute, perDay)| <= Max(0, limit)
    && |LetThroughBy(log, Passing(log, key, limit, from, until), scope, perMinute, perDay)| <= Max(0, 2 * limit - 1)
  }

  lemma KeyBound(events: seq<Event>, scope: Scope, perMinute: int, perDay: int, key: Key, limit: int, born: Millis,
                 from: Millis, until: Millis)
    requires ClockAscends(events) && until == from + 1000 * key.windowSeconds
    ensures WithinLimit(Play(events).log, scope, perMinute, perDay, key, limit, born, from, until)
  {
    var log := Play(events).log;
    var lifetime, stretch := PassingInLifetime(log, key, limit, born), Passing(log, key, limit, from, until);
    LifetimeBound(events, key, limit, born);
    StretchBound(events, key, limit, from);
    ImageIsSmaller(log, lifetime, LetThroughBy(log, lifetime, scope, perMinute, perDay));
    ImageIsSmaller(log, stretch, LetThroughBy(log, stretch, scope, perMinute, perDay));
  }

  /**
   * Over every timed run of both endpoints' requests: a scope has at most perMinute requests let
   * through per lifetime of its minute key and at most 2 * perMinute - 1 in any closed 60 seconds,
   * and at the same time at most perDay per lifetime of its day key and 2 * perDay - 1 in any 24 hours.
   */
  lemma RequestBound(events: seq<Event>, scope: Scope, perMinute: int, perDay: int, born: Millis, from: Millis)
    requires ClockAscends(events)
    ensures WithinLimit(Play(events).log, scope, perMinute, perDay, Key(scope, 60), perMinute, born, from, from + 60000)
    ensures WithinLimit(Play(events).log, scope, perMinute, perDay, Key(scope, 86400), perDay, born, from,
                        from + 86400000)
  {
    KeyBound(events, scope, perMinute, perDay, Key(scope, 60), perMinute, born, from, from + 60000);
    KeyBound(events, scope, perMinute, perDay, Key(scope, 86400), perDay, born, from, from + 86400000);
  }

  lemma HitMore(keys: Keys, scope: Scope, windows: seq<Window>, at: seq<Millis>, w: Window, now: Millis)
    requires |windows| == |at|
    ensures var (before, decisions) := HitAll(keys, scope, windows, at);
            var key := Key(scope, w.seconds);
            var keys' := AfterHit(before, key, now);
            HitAll(keys, scope, windows + [w], at + [now])
            == (keys', decisions + [Decision(keys'[key].count, PTtl(keys', key, now), w.limit)])
  {
    var n := |windows|;
    assert (windows + [w])[..n] == windows && (at + [now])[..n] == at;
    assert (windows + [w])[n] == w && (at + [now])[n] == now;
    var key := Key(scope, w.seconds);
    var all := HitAll(keys, scope, windows + [w], at + [now]);
    assert all.0 == AfterHit(HitAll(keys, scope, windows, at).0, key, now);
    assert all.1 == HitAll(keys, scope, windows, at).1 + [Decision(all.0[key].count, PTtl(all.0, key, now), w.limit)];
  }

  lemma HitBoth(keys: Keys, scope: Scope, v: Window, w: Window, at: Millis, now: Millis)
    ensures var first, second := Key(scope, v.seconds), Key(scope, w.seconds);
            var one := AfterHit(keys, first, at);
            var two := AfterHit(one, second, now);
            HitAll(keys, scope, [v, w], [at, now])
            == (two, [Decision(one[first].count, PTtl(one, first, at), v.limit),
                      Decision(two[second].count, PTtl(two, second, now), w.limit)])
  {
    var first, second := Key(scope, v.seconds), Key(scope, w.seconds);
    var one := AfterHit(keys, first, at);
    var two := AfterHit(one, second, now);
    var d, e := Decision(one[first].count, PTtl(one, first, at), v.limit),
        Decision(two[second].count, PTtl(two, second, now), w.limit);
    HitMore(keys, scope, [], [], v, at);
    assert [] + [v] == [v] && [] + [at] == [at] && [] + [d] == [d];
    HitMore(keys, scope, [v], [at], w, now);
    assert [v] + [w] == [v, w] && [at] + [now] == [at, now] && [d] + [e] == [d, e];
  }

  lemma DecideBoth(first: Decision, second: Decision)
    ensures Decide([first, second])
            == (if first.count > first.limit then Limited(RetryAfter(first.ttlMs))
                else if second.count > second.limit then Limited(RetryAfter(second.ttlMs))
                else Admitted)
  {
    assert [first, second][1..] == [second] && [second][1..] == [];
    assert Decide([second]) == if second.count > second.limit then Limited(RetryAfter(second.ttlMs)) else Admitted;
  }

  lemma PlayNext(events: seq<Event>, e: Event)
    ensures var t := Play(events);
            var keys' := AfterHit(t.keys, e.key, e.at);
            Play(events + [e])
            == Trace(keys', t.log + [Entry(e.request, e.key, e.at, BornAt(t.keys, e.key, e.at), keys'[e.key].count)])
  {
    var longer := events + [e];
    assert longer[..|longer| - 1] == events && longer[|longer| - 1] == e;
    assert Play(longer).keys == AfterHit(Play(events).keys, e.key, e.at);
    assert Play(longer).log
           == Play(events).log + [Entry(e.request, e.key, e.at, BornAt(Play(events).keys, e.key, e.at),
               Play(longer).keys[e.key].count)];
  }

  /** The script never leaves a key without a TTL, whatever the clock does: no scope is locked out forever. */
  lemma {:induction false} KeysAlwaysExpire(events: seq<Event>)
    ensures EveryKeyExpires(Play(events).keys)
  {
    if events != [] {
      var n := |events| - 1;
      KeysAlwaysExpire(events[..n]);
      HitOutcome(Play(events[..n]).keys, events[n].key, events[n].at);
    }
  }

  /** The TTL answered is what is left of the entry's lifetime. */
  lemma TtlOfEntry(keys: Keys, key: Key, at: Millis)
    requires EveryKeyExpires(keys)
    ensures PTtl(AfterHit(keys, key, at), key, at) == BornAt(keys, key, at) + Lifetime(key) - at
  {
    HitOutcome(keys, key, at);
  }

  function RetryOf(e: Entry): int { RetryAfter(e.born + 1000 * e.key.windowSeconds - e.at) }

  /**
   * An enforced request is two events of the run, minute first; it is admitted exactly when both of
   * them pass, and otherwise told what is left of the lifetime of the first that does not.
   */
  lemma EnforcedIsTwoEvents(events: seq<Event>, request: nat, scope: Scope, perMinute: int, perDay: int, first: Millis,
                            second: Millis)
    ensures var minute, day := Event(request, Key(scope, 60), first), Event(request, Key(scope, 86400), second);
            var t := Play(events + [minute] + [day]);
            var (keys, verdict) := Enforced(Play(events).keys, scope, perMinute, perDay, first, second);
            && keys == t.keys && |t.log| >= 2
            && var m, d := t.log[|t.log| - 2], t.log[|t.log| - 1];
               && m.request == d.request == request && m.key == minute.key && d.key == day.key
               && verdict == (if m.count > perMinute then Limited(RetryOf(m))
                              else if d.count > perDay then Limited(RetryOf(d))
                              else Admitted)
  {
    var minute, day := Event(request, Key(scope, MINUTE), first), Event(request, Key(scope, DAY), second);
    PlayNext(events, minute);
    PlayNext(events + [minute], day);
    HitBoth(Play(events).keys, scope, Window(MINUTE, perMinute), Window(DAY, perDay), first, second);
    var decisions := HitAll(Play(events).keys, scope, WindowsOf(perMinute, perDay), [first, second]).1;
    DecideBoth(decisions[0], decisions[1]);
    KeysAlwaysExpire(events);
    TtlOfEntry(Play(events).keys, minute.key, first);
    KeysAlwaysExpire(events + [minute]);
    TtlOfEntry(Play(events + [minute]).keys, day.key, second);
  }

  // ----- exactly which hits pass ----------------------------------------------------------------------------

  /** The hits of one lifetime of a key, passed or not. */
  function OfLifetime(log: seq<Entry>, key: Key, born: Millis): set<int> {
    set i | 0 <= i < |log| && log[i].key == key && log[i].born == born
  }

  /** The stored count is the number of hits the log has of the key's present lifetime. */
  ghost predicate Counted(t: Trace, key: Key) {
    key in t.keys && t.keys[key].expireAt.Some? ==>
      t.keys[key].count == |OfLifetime(t.log, key, t.keys[key].expireAt.value - Lifetime(key))|
  }

  lemma OneMoreOfLifetime(log: seq<Entry>, f: Entry)
    ensures |OfLifetime(log + [f], f.key, f.born)| == |OfLifetime(log, f.key, f.born)| + 1
  {
    assert OfLifetime(log + [f], f.key, f.born) == OfLifetime(log, f.key, f.born) + {|log|};
  }

  lemma OthersOfLifetime(log: seq<Entry>, f: Entry, key: Key, born: Millis)
    requires f.key != key
    ensures OfLifetime(log + [f], key, born) == OfLifetime(log, key, born)
  {
  }

  /** A hit past the key's expiry is the first of its lifetime. */
  lemma FirstOfLifetime(t: Trace, f: Entry)
    requires WellKept(t, f.at) && !Live(t.keys, f.key, f.at)
    ensures OfLifetime(t.log, f.key, f.at) == {}
  {
    forall i | 0 <= i < |t.log| && t.log[i].key == f.key
      ensures t.log[i].born != f.at
    {
      assert Accounted(t.keys, t.log[i]);
    }
  }

  lemma HitIsCounted(t: Trace, f: Entry, key: Key)
    requires WellKept(t, f.at) && Counted(t, key)
    requires f.born == BornAt(t.keys, f.key, f.at)
    ensures Counted(Trace(AfterHit(t.keys, f.key, f.at), t.log + [f]), key)
  {
    HitOutcome(t.keys, f.key, f.at);
    if f.key != key {
      if key in t.keys { OthersOfLifetime(t.log, f, key, t.keys[key].expireAt.value - Lifetime(key)); }
    } else {
      OneMoreOfLifetime(t.log, f);
      if !Live(t.keys, key, f.at) { FirstOfLifetime(t, f); }
    }
  }

  lemma NextIsCounted(events: seq<Event>, e: Event, key: Key)
    requires ClockAscends(events) && forall i | 0 <= i < |events| :: events[i].at <= e.at
    requires Counted(Play(events), key)
    ensures Counted(Play(events + [e]), key)
  {
    var t := Play(events);
    PlayIsKept(events, e.at);
    PlayNext(events, e);
    HitIsCounted(t, Entry(e.request, e.key, e.at, BornAt(t.keys, e.key, e.at),
        AfterHit(t.keys, e.key, e.at)[e.key].count), key);
  }

  lemma {:induction false} CountsHits(events: seq<Event>, key: Key)
    requires ClockAscends(events)
    ensures Counted(Play(events), key)
  {
    if events != [] {
      var n := |events| - 1;
      CountsHits(events[..n], key);
      NextIsCounted(events[..n], events[n], key);
      assert events[..n] + [events[n]] == events;
    }
  }

  lemma {:induction false} PlayPrefix(events: seq<Event>, n: nat)
    requires n <= |events|
    ensures |Play(events).log| == |events| && Play(events).log[..n] == Play(events[..n]).log
  {
    if events != [] && n < |events| {
      PlayPrefix(events[..|events| - 1], n);
      assert events[..|events| - 1][..n] == events[..n];
    } else {
      assert events[..n] == events;
      if events != [] { PlayPrefix(events[..|events| - 1], |events| - 1); }
    }
  }

  lemma HitCount(t: Trace, f: Entry)
    requires WellKept(t, f.at) && Counted(t, f.key) && f.born == BornAt(t.keys, f.key, f.at)
    ensures AfterHit(t.keys, f.key, f.at)[f.key].count == |OfLifetime(t.log, f.key, f.born)| + 1
  {
    HitIsCounted(t, f, f.key);
    HitOutcome(t.keys, f.key, f.at);
    OneMoreOfLifetime(t.log, f);
  }

  /** The log's i-th entry is what the i-th event finds after the events before it. */
  lemma EntryAt(events: seq<Event>, i: nat)
    requires i < |events|
    ensures var t, log, e := Play(events[..i]), Play(events).log, events[i];
            && |log| == |events| && log[..i] == t.log
            && log[i] == Entry(e.request, e.key, e.at, BornAt(t.keys, e.key, e.at),
                AfterHit(t.keys, e.key, e.at)[e.key].count)
  {
    PlayPrefix(events, i);
    PlayPrefix(events, i + 1);
    assert events[..i + 1] == events[..i] + [events[i]];
    PlayNext(events[..i], events[i]);
    assert Play(events).log[i] == Play(events).log[..i + 1][i];
  }

  /**
   * A hit passes if and only if fewer than `limit` hits came before it in its key's lifetime, the
   * rejected ones included: knocking on a closed door uses up the window, but never prolongs it.
   */
  lemma PassesIff(events: seq<Event>, i: nat, limit: int)
    requires ClockAscends(events) && i < |events|
    ensures |Play(events).log| == |events|
    ensures var log := Play(events).log;
            log[i].count <= limit <==> |OfLifetime(log[..i], log[i].key, log[i].born)| < limit
  {
    EntryAt(events, i);
    PlayIsKept(events[..i], events[i].at);
    CountsHits(events[..i], events[i].key);
    HitCount(Play(events[..i]), Play(events).log[i]);
  }

  /**
   * Two hits of a key share a lifetime if and only if the later comes within a window of its start:
   * nothing prolongs it.
   */
  lemma SameLifetimeIff(events: seq<Event>, i: nat, k: nat)
    requires ClockAscends(events) && i < k < |events| && events[i].key == events[k].key
    ensures |Play(events).log| == |events|
    ensures var log := Play(events).log;
            log[k].born == log[i].born <==> log[k].at <= log[i].born + 1000 * log[i].key.windowSeconds
  {
    var log := Play(events).log;
    PlayIsRegular(events);
    assert InSequence(log[i], log[k]) && InLifetime(log[k]);
  }

  /** Retry-After is the least whole number of seconds, at least one, that covers the remaining TTL. */
  lemma RetryAfterIsLeast(ttlMs: Millis, seconds: int)
    requires seconds >= 1
    ensures RetryAfter(ttlMs) >= 1
    ensures seconds >= RetryAfter(ttlMs) <==> 1000 * seconds >= ttlMs
  {
  }

  /** A client that waits out Retry-After meets a new lifetime of the key; one that waits a second less may not. */
  lemma RetryAfterIsEnough(events: seq<Event>, i: nat, k: nat)
    requires ClockAscends(events) && i < k < |events| && events[i].key == events[k].key
    ensures |Play(events).log| == |events|
    ensures var log := Play(events).log;
            var retry := RetryOf(log[i]);
            && (log[k].at > log[i].at + 1000 * retry ==> log[k].born > log[i].at)
            && (retry > 1 && log[k].at <= log[i].at + 1000 * (retry - 1) ==> log[k].born == log[i].born)
  {
    var log := Play(events).log;
    PlayIsRegular(events);
    SameLifetimeIff(events, i, k);
    RetryAfterIsLeast(log[i].born + Lifetime(log[i].key) - log[i].at, 1);
    assert InSequence(log[i], log[k]) && InLifetime(log[i]);
  }

  // ----- the bound is reached ----------------------------------------------------------------------------------

  /** One hit, limit - 1 more at the very end of its lifetime, and limit at the start of the next. */
  function Burst(key: Key, limit: nat): seq<Event> {
    var w := 1000 * key.windowSeconds;
    seq(2 * limit, i requires 0 <= i < 2 * limit => Event(i, key, if i == 0 then 0 else if i < limit then w else w + 1))
  }

  lemma {:induction false} BurstCounts(key: Key, limit: nat, n: nat)
    requires 0 < n <= 2 * limit
    ensures var t := Play(Burst(key, limit)[..n]);
            && |t.log| == n && key in t.keys
            && t.keys[key] == (if n <= limit then Counter(n, Some(1000 * key.windowSeconds))
                               else Counter(n - limit, Some(2000 * key.windowSeconds + 1)))
            && forall i | 0 <= i < n ::
                 t.log[i].key == key && t.log[i].at == Burst(key, limit)[i].at && t.log[i].count <= limit
  {
    var events := Burst(key, limit)[..n];
    assert events[..n - 1] == Burst(key, limit)[..n - 1];
    if n > 1 { BurstCounts(key, limit, n - 1); }
  }

  function Indices(n: nat): set<int> {
    if n == 0 then {} else Indices(n - 1) + {n - 1}
  }

  lemma {:induction false} IndicesSize(n: nat)
    ensures |Indices(n)| == n && forall i :: i in Indices(n) <==> 0 <= i < n
  {
    if n > 0 { IndicesSize(n - 1); }
  }

  /** For every limit and window some run has a stretch that passes 2 * limit - 1 hits. */
  lemma StretchBoundIsReached(key: Key, limit: nat)
    requires limit > 0 && key.windowSeconds > 0
    ensures var events, w := Burst(key, limit), 1000 * key.windowSeconds;
            ClockAscends(events) && |Passing(Play(events).log, key, limit, w, w + w)| == 2 * limit - 1
  {
    var events, w := Burst(key, limit), 1000 * key.windowSeconds;
    assert events[..2 * limit] == events;
    BurstCounts(key, limit, 2 * limit);
    BurstPasses(Play(events).log, key, limit);
  }

  lemma BurstPasses(log: seq<Entry>, key: Key, limit: nat)
    requires limit > 0 && key.windowSeconds > 0 && |log| == 2 * limit
    requires forall i | 0 <= i < 2 * limit ::
               log[i].key == key && log[i].at == Burst(key, limit)[i].at && log[i].count <= limit
    ensures |Passing(log, key, limit, 1000 * key.windowSeconds, 2000 * key.windowSeconds)| == 2 * limit - 1
  {
    var w := 1000 * key.windowSeconds;
    IndicesSize(2 * limit);
    forall i | 0 <= i < 2 * limit
      ensures i in Passing(log, key, limit, w, 2 * w) <==> i != 0
    {
      assert log[i].at == if i == 0 then 0 else if i < limit then w else w + 1;
    }
    assert Passing(log, key, limit, w, 2 * w) == Indices(2 * limit) - {0};
  }
}
