/** The sliding-window rate limiter of the packet forwarder: a bounded table of routes, each with
    the times of its recently accepted requests, against the full history of all requests. */
module RateLimiter {

  import opened Environment

  type Time = nat

  /** (source address, protocol, destination port). */
  datatype Route = Route(srcIp: nat, protocol: nat, destPort: nat)

  datatype Request = Request(route: Route, time: Time, accepted: bool)

  /** The times at which `route` had a request accepted. */
  function AcceptedTimes(log: seq<Request>, route: Route): seq<Time> {
    if log == [] then []
    else
      var last := log[|log| - 1];
      AcceptedTimes(log[..|log| - 1], route)
      + if last.route == route && last.accepted then [last.time] else []
  }

  /** retain: the times at most `window` before `now`. */
  function Recent(times: seq<Time>, now: Time, window: nat): (r: seq<Time>)
    ensures |r| <= |times|
  {
    if times == [] then []
    else
      var last := times[|times| - 1];
      Recent(times[..|times| - 1], now, window) + if now <= last + window then [last] else []
  }

  /** How many of the times lie in the closed interval from `lo` to `hi`. */
  function CountWithin(times: seq<Time>, lo: Time, hi: Time): nat {
    if times == [] then 0
    else
      CountWithin(times[..|times| - 1], lo, hi)
      + if lo <= times[|times| - 1] <= hi then 1 else 0
  }

  /** Every accepted request saw fewer than `limit` accepted ones in its last window. */
  ghost predicate Disciplined(log: seq<Request>, window: nat, limit: nat) {
    forall i :: 0 <= i < |log| && log[i].accepted ==>
      |Recent(AcceptedTimes(log[..i], log[i].route), log[i].time, window)| < limit
  }

  ghost predicate Monotone(log: seq<Request>) {
    forall i, j :: 0 <= i < j < |log| ==> log[i].time <= log[j].time
  }

  lemma {:induction false} CountAtMostRecent(times: seq<Time>, lo: Time, window: nat, now: Time)
    requires now <= lo + window
    ensures CountWithin(times, lo, lo + window) <= |Recent(times, now, window)|
  {
    if times == [] {
    } else {
      CountAtMostRecent(times[..|times| - 1], lo, window, now);
    }
  }

  /** The sliding-window bound: no closed interval as long as the window contains more than
      `limit` accepted requests of one route. */
  lemma {:induction false} WindowBound(
      log: seq<Request>, window: nat, limit: nat, route: Route, lo: Time)
    requires Disciplined(log, window, limit)
    ensures CountWithin(AcceptedTimes(log, route), lo, lo + window) <= limit
  {
    if log == [] {
    } else {
      var n := |log| - 1;
      var init, last := log[..n], log[n];
      forall i | 0 <= i < n ensures init[..i] == log[..i] {
      }
      WindowBound(init, window, limit, route, lo);
      var earlier := AcceptedTimes(init, route);
      if last.route == route && last.accepted {
        assert (earlier + [last.time])[..|earlier|] == earlier;
        if lo <= last.time <= lo + window {
          CountAtMostRecent(earlier, lo, window, last.time);
        }
      } else {
        assert earlier + [] == earlier;
      }
    }
  }

  lemma {:induction false} RecentSplits(a: seq<Time>, b: seq<Time>, now: Time, window: nat)
    ensures Recent(a + b, now, window) == Recent(a, now, window) + Recent(b, now, window)
  {
    if b == [] {
      assert a + b == a;
    } else {
      RecentSplits(a, b[..|b| - 1], now, window);
      assert (a + b)[..|a + b| - 1] == a + b[..|b| - 1];
    }
  }

  lemma {:induction false} NoneRecent(times: seq<Time>, now: Time, window: nat)
    requires forall i | 0 <= i < |times| :: times[i] + window < now
    ensures Recent(times, now, window) == []
  {
    if times == [] {
    } else {
      NoneRecent(times[..|times| - 1], now, window);
    }
  }

  /** Where the closed window that ends at `now` begins. */
  function WindowStart(now: Time, window: nat): Time {
    if now < window then 0 else now - window
  }

  /** Retaining the recent ones of times that are not in the future counts those in the window. */
  lemma {:induction false} RecentAreThoseWithin(times: seq<Time>, now: Time, window: nat)
    requires forall i | 0 <= i < |times| :: times[i] <= now
    ensures |Recent(times, now, window)| == CountWithin(times, WindowStart(now, window), now)
  {
    if times == [] {
    } else {
      RecentAreThoseWithin(times[..|times| - 1], now, window);
    }
  }

  /** Times that have left the window do not come back into it. */
  lemma RecentIgnoresStale(times: seq<Time>, k: nat, now: Time, window: nat)
    requires k <= |times| && forall i | 0 <= i < k :: times[i] + window < now
    ensures Recent(times, now, window) == Recent(times[k..], now, window)
  {
    assert times == times[..k] + times[k..];
    RecentSplits(times[..k], times[k..], now, window);
    NoneRecent(times[..k], now, window);
  }

  ghost predicate Sorted(times: seq<Time>) {
    forall i, j :: 0 <= i < j < |times| ==> times[i] <= times[j]
  }

  lemma AllStale(times: seq<Time>, now: Time, window: nat)
    requires Sorted(times) && times != [] && times[|times| - 1] + window < now
    ensures Recent(times, now, window) == []
    ensures forall i | 0 <= i < |times| :: times[i] + window < now
  {
    forall i | 0 <= i < |times| ensures times[i] + window < now {
      assert i == |times| - 1 || times[i] <= times[|times| - 1];
    }
    NoneRecent(times, now, window);
  }

  /** In a sorted sequence the recent times are a suffix. */
  lemma {:induction false} RecentIsSuffix(times: seq<Time>, now: Time, window: nat)
    requires Sorted(times)
    ensures Recent(times, now, window) == times[|times| - |Recent(times, now, window)|..]
    ensures forall i | 0 <= i < |times| - |Recent(times, now, window)| ::
      times[i] + window < now
  {
    if times == [] {
    } else {
      var n := |times| - 1;
      if now <= times[n] + window {
        var init := times[..n];
        RecentIsSuffix(init, now, window);
        var k := n - |Recent(init, now, window)|;
        assert times[k..] == init[k..] + [times[n]];
        forall i | 0 <= i < k ensures times[i] + window < now {
          assert init[i] == times[i];
        }
      } else {
        AllStale(times, now, window);
      }
    }
  }

  lemma {:induction false} AcceptedTimesSorted(log: seq<Request>, route: Route, clock: Time)
    requires Monotone(log) && (log != [] ==> log[|log| - 1].time <= clock)
    ensures var a := AcceptedTimes(log, route); Sorted(a) && forall i | 0 <= i < |a| :: a[i] <= clock
  {
    if log == [] {
    } else {
      AcceptedTimesSorted(log[..|log| - 1], route, log[|log| - 1].time);
    }
  }

  lemma AcceptedTimesExtend(log: seq<Request>, r: Request, route: Route)
    ensures AcceptedTimes(log + [r], route)
      == AcceptedTimes(log, route) + if r.route == route && r.accepted then [r.time] else []
  {
    assert (log + [r])[..|log|] == log;
  }

  lemma LogExtends(log: seq<Request>, r: Request, window: nat, limit: nat)
    requires Monotone(log) && (log != [] ==> log[|log| - 1].time <= r.time)
    requires Disciplined(log, window, limit)
    requires r.accepted ==> |Recent(AcceptedTimes(log, r.route), r.time, window)| < limit
    ensures Monotone(log + [r]) && Disciplined(log + [r], window, limit)
  {
    var l := log + [r];
    forall i | 0 <= i < |l| && l[i].accepted
      ensures |Recent(AcceptedTimes(l[..i], l[i].route), l[i].time, window)| < limit
    {
      assert l[..i] == log[..i];
      assert log[..|log|] == log;
    }
  }

  /** What is stored for a route: all its accepted times up to ones that are stale for good. */
  ghost predicate Faithful(all: seq<Time>, stored: seq<Time>, window: nat, clock: Time) {
    && |stored| <= |all| && stored == all[|all| - |stored|..]
    && forall i | 0 <= i < |all| - |stored| :: all[i] + window < clock
  }

  /** Expiring the stored times gives the same as expiring the full history would. */
  lemma ExpiryIsFaithful(
      all: seq<Time>, stored: seq<Time>, window: nat, clock: Time, now: Time)
    requires Sorted(all) && Faithful(all, stored, window, clock) && clock <= now
    ensures Recent(stored, now, window) == Recent(all, now, window)
    ensures Faithful(all, Recent(all, now, window), window, now)
  {
    RecentIgnoresStale(all, |all| - |stored|, now, window);
    RecentIsSuffix(all, now, window);
  }

  lemma PushIsFaithful(all: seq<Time>, stored: seq<Time>, window: nat, now: Time)
    requires Faithful(all, stored, window, now)
    ensures Faithful(all + [now], stored + [now], window, now)
  {
  }

  /** What is stored for a route; a route that is not tracked has nothing stored. */
  function Stored(routes: map<Route, seq<Time>>, route: Route): seq<Time> {
    if route in routes then routes[route] else []
  }

  /** The table has forgotten only times of the route that are stale for good. */
  ghost predicate AgreesOn(routes: map<Route, seq<Time>>, log: seq<Request>, window: nat,
      clock: Time, route: Route)
  {
    Faithful(AcceptedTimes(log, route), Stored(routes, route), window, clock)
  }

  /** The table agrees with the full history on every route, tracked or not. */
  ghost predicate Agrees(
      routes: map<Route, seq<Time>>, log: seq<Request>, window: nat, clock: Time)
  {
    forall route {:trigger AgreesOn(routes, log, window, clock, route)} ::
      AgreesOn(routes, log, window, clock, route)
  }

  /** A log of requests decided up to `clock`. */
  ghost predicate History(log: seq<Request>, window: nat, limit: nat, clock: Time) {
    && Monotone(log) && (log != [] ==> log[|log| - 1].time <= clock)
    && Disciplined(log, window, limit)
  }

  /** The answer a request would get, from the full history alone but for the bound on how many
      routes are tracked. */
  ghost predicate Admits(routes: map<Route, seq<Time>>, log: seq<Request>,
      route: Route, now: Time, window: nat, limit: nat, maxRoutes: nat)
  {
    && (route in routes || |routes| < maxRoutes)
    && HasRoom(log, route, now, window, limit)
  }

  /** Fewer than the limit of the route's requests were accepted in the window that ends now. */
  ghost predicate HasRoom(log: seq<Request>, route: Route, now: Time, window: nat, limit: nat) {
    CountWithin(AcceptedTimes(log, route), WindowStart(now, window), now) < limit
  }

  lemma HistoryIsCounted(
      log: seq<Request>, route: Route, clock: Time, now: Time, window: nat)
    requires Monotone(log) && (log != [] ==> log[|log| - 1].time <= clock) && clock <= now
    ensures |Recent(AcceptedTimes(log, route), now, window)|
      == CountWithin(AcceptedTimes(log, route), WindowStart(now, window), now)
  {
    AcceptedTimesSorted(log, route, clock);
    RecentAreThoseWithin(AcceptedTimes(log, route), now, window);
  }

  /** A request that leaves alone what is stored for a route keeps the agreement on it, unless it
      is an accepted request of that route. */
  lemma UntouchedRouteAgrees(routes: map<Route, seq<Time>>, routes': map<Route, seq<Time>>,
      log: seq<Request>, r: Request, window: nat, clock: Time, route: Route)
    requires AgreesOn(routes, log, window, clock, route) && clock <= r.time
    requires Stored(routes', route) == Stored(routes, route)
    requires route != r.route || !r.accepted
    ensures AgreesOn(routes', log + [r], window, r.time, route)
  {
    AcceptedTimesExtend(log, r, route);
    assert AcceptedTimes(log + [r], route) == AcceptedTimes(log, route);
  }

  /** A refused request changes nothing that is stored. */
  lemma RefusalKeepsAgreement(routes: map<Route, seq<Time>>, log: seq<Request>, r: Request,
      window: nat, clock: Time)
    requires Agrees(routes, log, window, clock) && clock <= r.time && !r.accepted
    ensures Agrees(routes, log + [r], window, r.time)
  {
    forall route ensures AgreesOn(routes, log + [r], window, r.time, route) {
      assert AgreesOn(routes, log, window, clock, route);
      UntouchedRouteAgrees(routes, routes, log, r, window, clock, route);
    }
  }

  /** What a decision stores for the route it is about. */
  function Decided(routes: map<Route, seq<Time>>, r: Request, window: nat): seq<Time> {
    Recent(Stored(routes, r.route), r.time, window) + if r.accepted then [r.time] else []
  }

  lemma DecidedRouteAgrees(routes: map<Route, seq<Time>>, log: seq<Request>, r: Request,
      window: nat, clock: Time)
    requires AgreesOn(routes, log, window, clock, r.route) && clock <= r.time
    requires Sorted(AcceptedTimes(log, r.route))
    ensures Recent(Stored(routes, r.route), r.time, window)
      == Recent(AcceptedTimes(log, r.route), r.time, window)
    ensures AgreesOn(routes[r.route := Decided(routes, r, window)], log + [r], window, r.time,
      r.route)
  {
    var all, stored := AcceptedTimes(log, r.route), Stored(routes, r.route);
    ExpiryIsFaithful(all, stored, window, clock, r.time);
    PushIsFaithful(all, Recent(stored, r.time, window), window, r.time);
    AcceptedTimesExtend(log, r, r.route);
    assert all + [] == all;
    assert Recent(stored, r.time, window) + [] == Recent(stored, r.time, window);
  }

  /** A request that changes what is stored for its own route only. */
  lemma OneRouteChanged(routes: map<Route, seq<Time>>, times: seq<Time>, log: seq<Request>,
      r: Request, window: nat, clock: Time)
    requires Agrees(routes, log, window, clock) && clock <= r.time
    requires AgreesOn(routes[r.route := times], log + [r], window, r.time, r.route)
    ensures Agrees(routes[r.route := times], log + [r], window, r.time)
  {
    var routes' := routes[r.route := times];
    forall route | route != r.route ensures AgreesOn(routes', log + [r], window, r.time, route) {
      assert AgreesOn(routes, log, window, clock, route);
      UntouchedRouteAgrees(routes, routes', log, r, window, clock, route);
    }
  }

  /** Keeps the routes whose newest time is recent. */
  function Swept(routes: map<Route, seq<Time>>, now: Time, window: nat): map<Route, seq<Time>> {
    map route | route in routes && routes[route] != []
      && now <= routes[route][|routes[route]| - 1] + window :: routes[route]
  }

  lemma SweptRouteIsStale(all: seq<Time>, stored: seq<Time>, window: nat, clock: Time, now: Time)
    requires Sorted(all) && Faithful(all, stored, window, clock) && clock <= now
    requires stored == [] || stored[|stored| - 1] + window < now
    ensures forall i | 0 <= i < |all| :: all[i] + window < now
  {
    forall i | 0 <= i < |all| ensures all[i] + window < now {
      if i >= |all| - |stored| {
        assert all[|all| - 1] == stored[|stored| - 1];
        assert i == |all| - 1 || all[i] <= all[|all| - 1];
      }
    }
  }

  lemma SweepKeepsAgreement(routes: map<Route, seq<Time>>, log: seq<Request>, window: nat,
      limit: nat, clock: Time, now: Time)
    requires History(log, window, limit, clock) && Agrees(routes, log, window, clock)
    requires clock <= now
    ensures Agrees(Swept(routes, now, window), log, window, now)
    ensures |Swept(routes, now, window)| <= |routes|
    ensures Swept(routes, now, window) != routes ==> |Swept(routes, now, window)| < |routes|
  {
    var swept := Swept(routes, now, window);
    forall route ensures AgreesOn(swept, log, window, now, route) {
      assert AgreesOn(routes, log, window, clock, route);
      AcceptedTimesSorted(log, route, clock);
      if route !in swept {
        SweptRouteIsStale(AcceptedTimes(log, route), Stored(routes, route), window, clock, now);
      }
    }
    FewerKeys(swept.Keys, routes.Keys);
    if swept != routes {
      assert swept.Keys != routes.Keys;
    }
  }

  /** A sweep frees exactly the routes that have nothing accepted in the last window. */
  lemma SweepFreesIdle(routes: map<Route, seq<Time>>, log: seq<Request>, window: nat,
      limit: nat, clock: Time, now: Time, route: Route)
    requires History(log, window, limit, clock) && Agrees(routes, log, window, clock)
    requires clock <= now
    ensures route in Swept(routes, now, window)
      <==> route in routes && !HasRoom(log, route, now, window, 1)
  {
    assert AgreesOn(routes, log, window, clock, route);
    AcceptedTimesSorted(log, route, clock);
    NewestTells(AcceptedTimes(log, route), Stored(routes, route), window, clock, now);
    HistoryIsCounted(log, route, clock, now, window);
  }

  /** The newest stored time tells whether any time at all is recent. */
  lemma NewestTells(all: seq<Time>, stored: seq<Time>, window: nat, clock: Time, now: Time)
    requires Sorted(all) && Faithful(all, stored, window, clock) && clock <= now
    ensures (stored != [] && now <= stored[|stored| - 1] + window)
      <==> |Recent(all, now, window)| > 0
  {
    if stored != [] && now <= stored[|stored| - 1] + window {
      assert all[|all| - 1] == stored[|stored| - 1];
    } else {
      SweptRouteIsStale(all, stored, window, clock, now);
      NoneRecent(all, now, window);
    }
  }

  lemma FewerKeys(part: set<Route>, whole: set<Route>)
    requires part <= whole
    ensures |part| <= |whole| && (part != whole ==> |part| < |whole|)
  {
    assert whole == part + (whole - part);
    if part != whole {
      assert whole - part != {};
    }
  }

  /** A sweep never takes an answer away, and it changes no answer for a route that was tracked;
      the rest it can change only by freeing a slot of a full table. */
  lemma SweepKeepsAnswers(routes: map<Route, seq<Time>>, log: seq<Request>, window: nat,
      limit: nat, maxRoutes: nat, clock: Time, now: Time, route: Route, later: Time)
    requires History(log, window, limit, clock) && Agrees(routes, log, window, clock)
    requires clock <= now <= later && 1 <= limit && |routes| <= maxRoutes
    ensures
      var swept := Swept(routes, now, window);
      var before := Admits(routes, log, route, later, window, limit, maxRoutes);
      var after := Admits(swept, log, route, later, window, limit, maxRoutes);
      && (before ==> after)
      && (before != after ==>
            route !in routes && |routes| == maxRoutes && |swept| < maxRoutes)
  {
    var swept := Swept(routes, now, window);
    SweepKeepsAgreement(routes, log, window, limit, clock, now);
    if route in routes && route !in swept {
      assert AgreesOn(routes, log, window, clock, route);
      AcceptedTimesSorted(log, route, clock);
      SweptRouteIsStale(AcceptedTimes(log, route), Stored(routes, route), window, clock, now);
      NoneRecent(AcceptedTimes(log, route), later, window);
    }
  }

  lemma InsertGrowsByAtMostOne(routes: map<Route, seq<Time>>, route: Route, times: seq<Time>)
    ensures routes[route := times].Keys == routes.Keys + {route}
    ensures |routes[route := times]| == |routes| + if route in routes then 0 else 1
  {
    if route in routes {
      assert routes[route := times].Keys == routes.Keys;
    }
  }

  lemma RefusalStep(routes: map<Route, seq<Time>>, log: seq<Request>, r: Request, window: nat,
      limit: nat, clock: Time)
    requires History(log, window, limit, clock) && Agrees(routes, log, window, clock)
    requires clock <= r.time && !r.accepted
    ensures History(log + [r], window, limit, r.time)
    ensures Agrees(routes, log + [r], window, r.time)
  {
    RefusalKeepsAgreement(routes, log, r, window, clock);
    LogExtends(log, r, window, limit);
  }

  lemma DecidedIsRecent(
      routes: map<Route, seq<Time>>, log: seq<Request>, r: Request, window: nat)
    requires Recent(Stored(routes, r.route), r.time, window)
      == Recent(AcceptedTimes(log, r.route), r.time, window)
    ensures Decided(routes, r, window)
      == Recent(AcceptedTimes(log + [r], r.route), r.time, window)
  {
    var all := AcceptedTimes(log, r.route);
    AcceptedTimesExtend(log, r, r.route);
    if r.accepted {
      assert (all + [r.time])[..|all|] == all;
    } else {
      assert all + [] == all;
    }
  }

  /** Deciding on the stored times is deciding on the full history. */
  lemma DecisionStep(routes: map<Route, seq<Time>>, log: seq<Request>, r: Request, window: nat,
      limit: nat, clock: Time)
    requires History(log, window, limit, clock) && Agrees(routes, log, window, clock)
    requires clock <= r.time
    requires r.accepted == (|Recent(Stored(routes, r.route), r.time, window)| < limit)
    ensures r.accepted == HasRoom(log, r.route, r.time, window, limit)
    ensures History(log + [r], window, limit, r.time)
    ensures Decided(routes, r, window)
      == Recent(AcceptedTimes(log + [r], r.route), r.time, window)
    ensures
      var routes' := routes[r.route := Decided(routes, r, window)];
      && Agrees(routes', log + [r], window, r.time)
      && |routes'| == |routes| + if r.route in routes then 0 else 1
  {
    AcceptedTimesSorted(log, r.route, clock);
    assert AgreesOn(routes, log, window, clock, r.route);
    DecidedRouteAgrees(routes, log, r, window, clock);
    OneRouteChanged(routes, Decided(routes, r, window), log, r, window, clock);
    LogExtends(log, r, window, limit);
    InsertGrowsByAtMostOne(routes, r.route, Decided(routes, r, window));
    DecidedIsRecent(routes, log, r, window);
    HistoryIsCounted(log, r.route, clock, r.time, window);
  }

  class RateLimiter {
    const enabled: bool
    const maxRoutes: nat
    const maxRequests: nat
    const window: nat
    var routes: map<Route, seq<Time>>
    /** Every request the limiter has decided, and the latest time it has seen. */
    ghost var log: seq<Request>
    ghost var clock: Time

    ghost predicate Valid()
      reads this
    {
      && 1 <= maxRequests && |routes| <= maxRoutes
      && History(log, window, maxRequests, clock)
      && Agrees(routes, log, window, clock)
    }

    ghost predicate Admitted(route: Route, now: Time)
      reads this
    {
      Admits(routes, log, route, now, window, maxRequests, maxRoutes)
    }

    /** The effective limit is one less than asked for, but at least one; asking for zero wraps. */
    constructor (enabled: bool, maxRequests: usize, window: nat, maxRoutes: nat)
      ensures Valid() && routes == map[] && log == [] && clock == 0
      ensures this.enabled == enabled && this.window == window && this.maxRoutes == maxRoutes
      ensures maxRequests >= 2 ==> this.maxRequests == maxRequests - 1
      ensures maxRequests == 1 ==> this.maxRequests == 1
      ensures maxRequests == 0 ==> this.maxRequests == USIZE_MODULUS - 1
    {
      this.enabled, this.window, this.maxRoutes := enabled, window, maxRoutes;
      var less := (maxRequests + USIZE_MODULUS - 1) % USIZE_MODULUS;
      this.maxRequests := if less > 1 then less else 1;
      routes, log, clock := map[], [], 0;
    }

    /** One decision. The answer is the one the full history gives; the table then tracks the
        route unless it was full. */
    method IsAllowed(route: Route, now: Time) returns (allowed: bool)
      requires Valid() && clock <= now
      modifies `routes, `log, `clock
      ensures Valid()
      ensures allowed == old(Admitted(route, now))
      ensures log == old(log) + [Request(route, now, allowed)] && clock == now
      ensures route in old(routes) || |old(routes)| < maxRoutes ==>
        routes == old(routes)[route := Recent(AcceptedTimes(log, route), now, window)]
      ensures route !in old(routes) && |old(routes)| == maxRoutes ==> routes == old(routes)
    {
      if route !in routes && |routes| >= maxRoutes {
        ghost var refused := Request(route, now, false);
        RefusalStep(routes, log, refused, window, maxRequests, clock);
        assert !Admitted(route, now);
        log, clock := log + [refused], now;
        return false;
      }
      var timestamps := Recent(Stored(routes, route), now, window);
      allowed := |timestamps| < maxRequests;
      ghost var r := Request(route, now, allowed);
      DecisionStep(routes, log, r, window, maxRequests, clock);
      assert allowed == Admitted(route, now);
      if allowed {
        timestamps := timestamps + [now];
      }
      assert timestamps == Decided(routes, r, window);
      routes := routes[route := timestamps];
      log, clock := log + [r], now;
    }

    /** Nothing of the route was accepted in the window that ends now. */
    ghost predicate Idle(route: Route, now: Time)
      reads `log
    {
      HasRoom(log, route, now, window, 1)
    }

    /** Forgets the routes with nothing recent, exactly; so while some tracked route is idle, a
        cleanup makes room for new ones. */
    method CleanupOldRequests(now: Time)
      requires Valid() && clock <= now
      modifies `routes, `clock
      ensures Valid() && clock == now
      ensures routes == Swept(old(routes), now, window)
      ensures forall route, later {:trigger Admitted(route, later)} | now <= later ::
        && (old(Admitted(route, later)) ==> Admitted(route, later))
        && (old(Admitted(route, later)) != Admitted(route, later) ==>
              route !in old(routes) && |old(routes)| == maxRoutes)
      ensures forall route :: route in routes <==> route in old(routes) && !Idle(route, now)
      ensures (exists route :: route in old(routes) && Idle(route, now)) ==>
        forall route, later: Time {:trigger Admitted(route, later)} ::
          HasRoom(log, route, later, window, maxRequests) ==> Admitted(route, later)
    {
      forall route ensures route in Swept(routes, now, window)
          <==> route in routes && !Idle(route, now)
      {
        SweepFreesIdle(routes, log, window, maxRequests, clock, now, route);
      }
      SweepKeepsAgreement(routes, log, window, maxRequests, clock, now);
      forall route, later | now <= later ensures
          var after := Admits(Swept(routes, now, window), log, route, later, window,
            maxRequests, maxRoutes);
          && (Admitted(route, later) ==> after)
          && (Admitted(route, later) != after ==> route !in routes && |routes| == maxRoutes)
      {
        SweepKeepsAnswers(routes, log, window, maxRequests, maxRoutes, clock, now, route, later);
      }
      routes := Swept(routes, now, window);
      clock := now;
    }

    /** No more than the limit accepted for the route in the closed window that starts at `lo`. */
    ghost predicate WithinLimit(route: Route, lo: Time)
      reads `log
    {
      CountWithin(AcceptedTimes(log, route), lo, lo + window) <= maxRequests
    }

    /** The sliding-window bound, at any moment of any run of the limiter. */
    lemma NeverOverLimit(route: Route, lo: Time)
      requires Valid()
      ensures WithinLimit(route, lo)
    {
      WindowBound(log, window, maxRequests, route, lo);
    }
  }

  datatype Call =
    | Packet(route: Route, srcPort: nat, time: Time)
    | Cleanup(time: Time)

  /** The times of the packets of `route` that were let through. */
  function Granted(calls: seq<Call>, answers: seq<bool>, route: Route): seq<Time>
    requires |answers| == |calls|
  {
    if calls == [] then []
    else
      var n := |calls| - 1;
      Granted(calls[..n], answers[..n], route)
      + if calls[n].Packet? && calls[n].route == route && answers[n] then [calls[n].time] else []
  }

  lemma GrantedExtends(calls: seq<Call>, answers: seq<bool>, n: nat, answer: bool, route: Route)
    requires n < |calls| && |answers| == n
    ensures Granted(calls[..n + 1], answers + [answer], route)
      == Granted(calls[..n], answers, route)
        + if calls[n].Packet? && calls[n].route == route && answer then [calls[n].time] else []
  {
    assert calls[..n + 1][..n] == calls[..n] && (answers + [answer])[..n] == answers;
  }

  /** The log that a packet let through or refused leaves behind, seen by any one route. */
  lemma AnswerIsLogged(calls: seq<Call>, answers: seq<bool>, n: nat, answer: bool,
      log: seq<Request>, log': seq<Request>, route: Route)
    requires n < |calls| && |answers| == n
    requires AcceptedTimes(log, route) == Granted(calls[..n], answers, route)
    requires calls[n].Cleanup? ==> log' == log
    requires calls[n].Packet? ==>
      log' == log + [Request(calls[n].route, calls[n].time, answer)] || (log' == log && !answer)
    ensures AcceptedTimes(log', route) == Granted(calls[..n + 1], answers + [answer], route)
  {
    GrantedExtends(calls, answers, n, answer, route);
    if log' != log {
      AcceptedTimesExtend(log, Request(calls[n].route, calls[n].time, answer), route);
    }
  }

  /** The gate in front of the limiter, and a run of it: packets interleaved with cleanups. */
  class Security {
    const rateLimiter: RateLimiter

    constructor (rateLimiter: RateLimiter)
      ensures this.rateLimiter == rateLimiter
    {
      this.rateLimiter := rateLimiter;
    }

    /** A packet without a port is refused and a disabled limiter lets the rest through, both
        without a trace; otherwise the limiter decides. */
    method IsPacketSecure(route: Route, srcPort: nat, now: Time) returns (secure: bool)
      requires rateLimiter.Valid() && rateLimiter.clock <= now
      modifies rateLimiter`routes, rateLimiter`log, rateLimiter`clock
      ensures rateLimiter.Valid() && rateLimiter.clock <= now
      ensures secure == (route.destPort != 0 && srcPort != 0
        && (rateLimiter.enabled ==> old(rateLimiter.Admitted(route, now))))
      ensures rateLimiter.log == old(rateLimiter.log)
        + if route.destPort != 0 && srcPort != 0 && rateLimiter.enabled
          then [Request(route, now, secure)] else []
    {
      if route.destPort == 0 || srcPort == 0 {
        return false;
      }
      if !rateLimiter.enabled {
        return true;
      }
      secure := rateLimiter.IsAllowed(route, now);
    }

    ghost predicate Logged(calls: seq<Call>, answers: seq<bool>)
      requires |answers| == |calls|
      reads rateLimiter`log
    {
      forall route {:trigger Granted(calls, answers, route)} ::
        AcceptedTimes(rateLimiter.log, route) == Granted(calls, answers, route)
    }

    /** No more than the limit of packets let through for the route in the closed window that
        starts at `lo`. */
    ghost predicate Bounded(calls: seq<Call>, answers: seq<bool>, route: Route, lo: Time) {
      |answers| == |calls| &&
      CountWithin(Granted(calls, answers, route), lo, lo + rateLimiter.window)
        <= rateLimiter.maxRequests
    }

    method Answer(call: Call) returns (answer: bool)
      requires rateLimiter.Valid() && rateLimiter.clock <= call.time
      modifies rateLimiter`routes, rateLimiter`log, rateLimiter`clock
      ensures rateLimiter.Valid() && rateLimiter.clock <= call.time
      ensures call.Cleanup? ==> rateLimiter.log == old(rateLimiter.log)
      ensures call.Packet? && rateLimiter.enabled ==>
        || rateLimiter.log == old(rateLimiter.log) + [Request(call.route, call.time, answer)]
        || (rateLimiter.log == old(rateLimiter.log) && !answer)
      ensures call.Packet? ==>
        var hasPorts := call.route.destPort != 0 && call.srcPort != 0;
        var admitted := rateLimiter.enabled ==> old(rateLimiter.Admitted(call.route, call.time));
        answer == (hasPorts && admitted)
    {
      match call
      case Packet(route, srcPort, time) =>
        answer := IsPacketSecure(route, srcPort, time);
      case Cleanup(time) =>
        rateLimiter.CleanupOldRequests(time);
        answer := true;
    }

    /** Over every run from a fresh limiter that is on, the packets let through are exactly the
        accepted requests of the log, and no window ever holds more of them than the limit. */
    method Run(calls: seq<Call>) returns (answers: seq<bool>)
      requires rateLimiter.Valid() && rateLimiter.log == [] && rateLimiter.clock == 0
      requires forall i, j :: 0 <= i < j < |calls| ==> calls[i].time <= calls[j].time
      modifies rateLimiter`routes, rateLimiter`log, rateLimiter`clock
      ensures rateLimiter.Valid() && |answers| == |calls|
      ensures rateLimiter.enabled ==> Logged(calls, answers)
      ensures rateLimiter.enabled ==>
        forall route, lo: Time :: Bounded(calls, answers, route, lo)
    {
      answers := [];
      for i := 0 to |calls|
        invariant rateLimiter.Valid() && |answers| == i
        invariant i < |calls| ==> rateLimiter.clock <= calls[i].time
        invariant rateLimiter.enabled ==> Logged(calls[..i], answers)
      {
        ghost var log := rateLimiter.log;
        var answer := Answer(calls[i]);
        if rateLimiter.enabled {
          forall route ensures AcceptedTimes(rateLimiter.log, route)
              == Granted(calls[..i + 1], answers + [answer], route)
          {
            assert AcceptedTimes(log, route) == Granted(calls[..i], answers, route);
            AnswerIsLogged(calls, answers, i, answer, log, rateLimiter.log, route);
          }
        }
        answers := answers + [answer];
      }
      assert calls[..|calls|] == calls;
      if rateLimiter.enabled {
        forall route, lo: Time ensures Bounded(calls, answers, route, lo) {
          rateLimiter.NeverOverLimit(route, lo);
          assert AcceptedTimes(rateLimiter.log, route) == Granted(calls, answers, route);
        }
      }
    }
  }
}
