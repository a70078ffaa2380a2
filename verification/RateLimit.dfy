/**
 The sliding-window rate limiter, one pruned list of acceptance times per client address.
 `src/voter_api/api/middleware.py`, lines 87-133.
 */
module RateLimit {
  import opened Prelude

  type Ip = string

  const WINDOW := 60.0

  /** The times after `w`, in order. */
  function After(ts: seq<real>, w: real): seq<real> {
    if ts == [] then []
    else After(ts[..|ts| - 1], w) + if ts[|ts| - 1] > w then [ts[|ts| - 1]] else []
  }

  /** One request against a client's list: the new list and whether the request passes. */
  function Admit(rpm: int, kept: seq<real>, now: real): (seq<real>, bool) {
    if rpm <= 0 then (kept, true)
    else
      var pruned := After(kept, now - WINDOW);
      if |pruned| >= rpm then (pruned, false) else (pruned + [now], true)
  }

  /** One client's requests in order of arrival. */
  function Serve(rpm: int, times: seq<real>): (r: (seq<real>, seq<bool>))
    ensures |r.1| == |times|
  {
    if times == [] then ([], [])
    else
      var (kept, ds) := Serve(rpm, times[..|times| - 1]);
      var (next, d) := Admit(rpm, kept, times[|times| - 1]);
      (next, ds + [d])
  }

  /** The times of the requests that passed. */
  function Passed(times: seq<real>, ds: seq<bool>): seq<real>
    requires |times| == |ds|
  {
    if times == [] then []
    else Passed(times[..|times| - 1], ds[..|ds| - 1]) + if ds[|ds| - 1] then [times[|times| - 1]] else []
  }

  /** How many of the times lie in the half-open window (lo, hi]. */
  function CountIn(ts: seq<real>, lo: real, hi: real): nat {
    if ts == [] then 0
    else CountIn(ts[..|ts| - 1], lo, hi) + if lo < ts[|ts| - 1] <= hi then 1 else 0
  }

  ghost predicate NonDecreasing(ts: seq<real>) {
    forall i, j :: 0 <= i < j < |ts| ==> ts[i] <= ts[j]
  }

  lemma {:induction false} AfterSnoc(ts: seq<real>, t: real, w: real)
    ensures After(ts + [t], w) == After(ts, w) + if t > w then [t] else []
  {
    assert (ts + [t])[..|ts|] == ts;
  }

  lemma {:induction false} CountSnoc(ts: seq<real>, t: real, lo: real, hi: real)
    ensures CountIn(ts + [t], lo, hi) == CountIn(ts, lo, hi) + if lo < t <= hi then 1 else 0
  {
    assert (ts + [t])[..|ts|] == ts;
  }

  lemma {:induction false} PassedSnoc(times: seq<real>, ds: seq<bool>, t: real, d: bool)
    requires |times| == |ds|
    ensures Passed(times + [t], ds + [d]) == Passed(times, ds) + if d then [t] else []
  {
    assert (times + [t])[..|times|] == times && (ds + [d])[..|ds|] == ds;
  }

  lemma {:induction false} ServeSnoc(rpm: int, times: seq<real>, t: real)
    ensures Serve(rpm, times + [t])
         == var (kept, ds) := Serve(rpm, times); var (next, d) := Admit(rpm, kept, t); (next, ds + [d])
  {
    assert (times + [t])[..|times|] == times;
  }

  lemma {:induction false} AfterAfter(ts: seq<real>, v: real, w: real)
    requires v <= w
    ensures After(After(ts, v), w) == After(ts, w)
  {
    if ts != [] {
      var init, last := ts[..|ts| - 1], ts[|ts| - 1];
      AfterAfter(init, v, w);
      if last > v {
        AfterSnoc(After(init, v), last, w);
      } else {
        assert After(ts, v) == After(init, v) && After(ts, w) == After(init, w);
      }
    }
  }

  lemma {:induction false} AfterCounts(ts: seq<real>, w: real, now: real)
    requires forall i :: 0 <= i < |ts| ==> ts[i] <= now
    ensures |After(ts, w)| == CountIn(ts, w, now)
  {
    if ts != [] {
      AfterCounts(ts[..|ts| - 1], w, now);
    }
  }

  lemma {:induction false} PassedFrom(times: seq<real>, ds: seq<bool>, now: real)
    requires |times| == |ds| && forall i :: 0 <= i < |times| ==> times[i] <= now
    ensures forall i :: 0 <= i < |Passed(times, ds)| ==> Passed(times, ds)[i] <= now
  {
    if times != [] {
      PassedFrom(times[..|times| - 1], ds[..|ds| - 1], now);
    }
  }

  function RecentEnd(times: seq<real>, ds: seq<bool>): seq<real>
    requires |times| == |ds|
  {
    if times == [] then [] else After(Passed(times, ds), times[|times| - 1] - WINDOW)
  }

  /** One more request, at the level of the record of passed requests. */
  lemma {:induction false} RecentStep(rpm: int, times: seq<real>, ds: seq<bool>, kept: seq<real>, now: real)
    requires rpm > 0 && |times| == |ds| && kept == RecentEnd(times, ds) && (times != [] ==> times[|times| - 1] <= now)
    ensures var (next, d) := Admit(rpm, kept, now); next == RecentEnd(times + [now], ds + [d])
  {
    var past, d := Passed(times, ds), Admit(rpm, kept, now).1;
    PassedSnoc(times, ds, now, d);
    assert times == [] ==> past == [];
    hide Passed, After;
    PrunedAgrees(times, past, kept, now);
    if d {
      AfterSnoc(past, now, now - WINDOW);
    } else {
      assert past + [] == past;
    }
  }

  /** The pruned list is the recent end of the full record of passed requests. */
  lemma {:induction false} KeptIsRecent(rpm: int, times: seq<real>)
    requires rpm > 0 && NonDecreasing(times)
    ensures Serve(rpm, times).0 == RecentEnd(times, Serve(rpm, times).1)
  {
    hide Serve, RecentEnd, Admit;
    if times == [] {
      NothingServed(rpm);
    } else {
      var init, now := times[..|times| - 1], times[|times| - 1];
      KeptIsRecent(rpm, init);
      var (kept, ds) := Serve(rpm, init);
      assert times == init + [now];
      ServeSnoc(rpm, init, now);
      RecentStep(rpm, init, ds, kept, now);
    }
  }

  lemma {:induction false} NothingServed(rpm: int)
    ensures Serve(rpm, []) == ([], []) && RecentEnd([], []) == []
  {
  }

  lemma {:induction false} PrunedAgrees(init: seq<real>, past: seq<real>, kept: seq<real>, now: real)
    requires init == [] ==> past == []
    requires kept == if init == [] then [] else After(past, init[|init| - 1] - WINDOW)
    requires init != [] ==> init[|init| - 1] <= now
    ensures After(kept, now - WINDOW) == After(past, now - WINDOW)
  {
    if init != [] {
      AfterAfter(past, init[|init| - 1] - WINDOW, now - WINDOW);
    }
  }

  lemma {:induction false} DecisionsPrefix(rpm: int, times: seq<real>, i: nat)
    requires i <= |times|
    ensures Serve(rpm, times).1[..i] == Serve(rpm, times[..i]).1
  {
    if i < |times| {
      DecisionsPrefix(rpm, times[..|times| - 1], i);
      assert times[..|times| - 1][..i] == times[..i];
    } else {
      assert times[..i] == times;
    }
  }

  /** The decision on one more request, in terms of the full record. */
  lemma {:induction false} AdmitIffRoom(rpm: int, times: seq<real>, ds: seq<bool>, kept: seq<real>, now: real)
    requires rpm > 0 && |times| == |ds| && kept == RecentEnd(times, ds)
    requires forall i :: 0 <= i < |times| ==> times[i] <= now
    ensures Admit(rpm, kept, now).1 <==> CountIn(Passed(times, ds), now - WINDOW, now) < rpm
  {
    assert times == [] ==> Passed(times, ds) == [];
    PassedFrom(times, ds, now);
    hide Passed, After, CountIn;
    PrunedAgrees(times, Passed(times, ds), kept, now);
    AfterCounts(Passed(times, ds), now - WINDOW, now);
  }

  /** A request passes exactly when fewer than `rpm` of the client's requests passed in (now - 60, now]. */
  lemma {:induction false} PassesIffRoom(rpm: int, times: seq<real>, i: nat)
    requires rpm > 0 && NonDecreasing(times) && i < |times|
    ensures Serve(rpm, times).1[i]
        <==> CountIn(Passed(times[..i], Serve(rpm, times[..i]).1), times[i] - 60.0, times[i]) < rpm
  {
    hide Serve, RecentEnd, Admit, Passed, CountIn;
    var init, now := times[..i], times[i];
    assert times[..i + 1] == init + [now];
    DecisionsPrefix(rpm, times, i + 1);
    ServeSnoc(rpm, init, now);
    KeptIsRecent(rpm, init);
    var (kept, ds) := Serve(rpm, init);
    AdmitIffRoom(rpm, init, ds, kept, now);
    assert Serve(rpm, times).1[..i + 1][i] == Serve(rpm, times).1[i];
  }

  /** Without a positive limit every request passes. */
  lemma {:induction false} UnlimitedPasses(rpm: int, times: seq<real>, i: nat)
    requires rpm <= 0 && i < |times|
    ensures Serve(rpm, times).1[i]
  {
    if i < |times| - 1 {
      UnlimitedPasses(rpm, times[..|times| - 1], i);
    }
  }

  lemma {:induction false} CountNarrower(ts: seq<real>, lo: real, hi: real, lo': real, hi': real)
    requires lo' <= lo && (hi <= hi' || forall i :: 0 <= i < |ts| ==> ts[i] <= hi')
    ensures CountIn(ts, lo, hi) <= CountIn(ts, lo', hi')
  {
    if ts != [] {
      CountNarrower(ts[..|ts| - 1], lo, hi, lo', hi');
    }
  }

  lemma {:induction false} CountNone(ts: seq<real>, lo: real, hi: real)
    requires forall i :: 0 <= i < |ts| ==> ts[i] <= lo
    ensures CountIn(ts, lo, hi) == 0
  {
    if ts != [] {
      CountNone(ts[..|ts| - 1], lo, hi);
    }
  }

  /** No half-open window of 60 seconds holds more than `rpm` passed requests of one client. */
  lemma {:induction false} WindowBound(rpm: int, times: seq<real>, w: real)
    requires rpm > 0 && NonDecreasing(times)
    ensures CountIn(Passed(times, Serve(rpm, times).1), w, w + 60.0) <= rpm
  {
    hide Serve, Passed, Admit;
    if times == [] {
      NothingPassed(rpm, w);
    } else {
      var init, now := times[..|times| - 1], times[|times| - 1];
      WindowBound(rpm, init, w);
      assert times == init + [now];
      ServeSnoc(rpm, init, now);
      var (kept, ds) := Serve(rpm, init);
      var past, d := Passed(init, ds), Admit(rpm, kept, now).1;
      PassedSnoc(init, ds, now, d);
      PassesIffRoom(rpm, times, |init|);
      PassedFrom(init, ds, now);
      hide CountIn;
      if d {
        CountSnoc(past, now, w, w + WINDOW);
        if w < now <= w + WINDOW {
          CountNarrower(past, w, w + WINDOW, now - WINDOW, now);
        }
      } else {
        assert past + [] == past;
      }
    }
  }

  lemma {:induction false} NothingPassed(rpm: int, w: real)
    ensures Serve(rpm, []).1 == [] && CountIn(Passed([], []), w, w + WINDOW) == 0
  {
  }

  // ---------------------------------------------------------------- a clock that steps back

  /** How many of the requests that pass lie in (w, w + 60]. */
  function PassedIn(rpm: int, times: seq<real>, w: real): nat {
    CountIn(Passed(times, Serve(rpm, times).1), w, w + 60.0)
  }

  /** The bound of `WindowBound`, on arbitrary arrival times. */
  ghost predicate BoundedOnAnyClock(rpm: int) {
    forall times: seq<real>, w: real :: PassedIn(rpm, times, w) <= rpm
  }

  /** No arrival is stamped more than `d` before an earlier one. */
  ghost predicate StepsBackAtMost(times: seq<real>, d: real) {
    forall i, j :: 0 <= i < j < |times| ==> times[i] - d <= times[j]
  }

  /** The bound on every clock that steps back by at most `d`. */
  ghost predicate BoundedOnClock(rpm: int, d: real) {
    forall times: seq<real>, w: real :: StepsBackAtMost(times, d) ==> PassedIn(rpm, times, w) <= rpm
  }

  /** `n` requests at 100. */
  function Same(n: nat): (ts: seq<real>)
    ensures |ts| == n && forall i :: 0 <= i < n ==> ts[i] == 100.0
  {
    if n == 0 then [] else Same(n - 1) + [100.0]
  }

  function Accepted(n: nat): (ds: seq<bool>)
    ensures |ds| == n
  {
    if n == 0 then [] else Accepted(n - 1) + [true]
  }

  lemma {:induction false} SameBurst(n: nat, lo: real, hi: real)
    requires lo < 100.0 <= hi
    ensures After(Same(n), lo) == Same(n) && After(Same(n), 100.0) == []
    ensures Passed(Same(n), Accepted(n)) == Same(n)
    ensures CountIn(Same(n), lo, hi) == n
  {
    if n > 0 {
      SameBurst(n - 1, lo, hi);
      AfterSnoc(Same(n - 1), 100.0, lo);
      AfterSnoc(Same(n - 1), 100.0, 100.0);
      PassedSnoc(Same(n - 1), Accepted(n - 1), 100.0, true);
      CountSnoc(Same(n - 1), 100.0, lo, hi);
    }
  }

  lemma {:induction false} BurstServed(rpm: int, n: nat)
    requires n <= rpm
    ensures Serve(rpm, Same(n)) == (Same(n), Accepted(n))
  {
    if n > 0 {
      BurstServed(rpm, n - 1);
      SameBurst(n - 1, 40.0, 100.0);
      hide After, Serve;
      ServeSnoc(rpm, Same(n - 1), 100.0);
    }
  }

  /** `rpm` requests at 100, one a minute later, and one with the clock set back by `d`. */
  function Backward(rpm: nat, d: real): seq<real> {
    Same(rpm) + [160.0] + [160.0 - d]
  }

  lemma {:induction false} MinuteLater(rpm: nat)
    requires rpm >= 2
    ensures Serve(rpm, Same(rpm) + [160.0]) == ([160.0], Accepted(rpm) + [true])
  {
    SameBurst(rpm, 40.0, 100.0);
    BurstServed(rpm, rpm);
    hide After, Serve, Same, Accepted;
    ServeSnoc(rpm, Same(rpm), 160.0);
    assert [] + [160.0] == [160.0];
  }

  lemma {:induction false} BackwardServed(rpm: nat, d: real)
    requires rpm >= 2 && 0.0 < d <= 60.0
    ensures Serve(rpm, Backward(rpm, d)).1 == Accepted(rpm) + [true] + [true]
  {
    MinuteLater(rpm);
    OneAfter(160.0, 100.0 - d);
    hide After, Serve, Same, Accepted;
    ServeSnoc(rpm, Same(rpm) + [160.0], 160.0 - d);
  }

  lemma {:induction false} BackwardPassed(rpm: nat, d: real)
    requires 0.0 < d <= 60.0
    ensures Passed(Backward(rpm, d), Accepted(rpm) + [true] + [true]) == Backward(rpm, d)
    ensures CountIn(Backward(rpm, d), 100.0 - d, 160.0 - d) == rpm + 1
  {
    SameBurst(rpm, 100.0 - d, 160.0 - d);
    hide Passed, CountIn, Same, Accepted;
    var x, ds := Same(rpm), Accepted(rpm);
    PassedSnoc(x, ds, 160.0, true);
    PassedSnoc(x + [160.0], ds + [true], 160.0 - d, true);
    CountSnoc(x, 160.0, 100.0 - d, 160.0 - d);
    CountSnoc(x + [160.0], 160.0 - d, 100.0 - d, 160.0 - d);
  }

  lemma {:induction false} BackwardBy(rpm: nat, d: real)
    requires 0.0 < d <= 60.0
    ensures StepsBackAtMost(Backward(rpm, d), d)
  {
    hide Same;
  }

  /** With a limit of two or more, any step back of the clock lets `rpm + 1` requests into one window. */
  lemma {:induction false} BackwardClock(rpm: int, d: real)
    requires rpm >= 2 && 0.0 < d <= 60.0
    ensures StepsBackAtMost(Backward(rpm, d), d)
    ensures PassedIn(rpm, Backward(rpm, d), 100.0 - d) == rpm + 1
  {
    hide Serve, Passed, CountIn, Backward, Accepted, StepsBackAtMost;
    BackwardBy(rpm, d);
    BackwardServed(rpm, d);
    BackwardPassed(rpm, d);
    assert 100.0 - d + WINDOW == 160.0 - d;
  }

  lemma {:induction false} OneAfter(x: real, w: real)
    requires x > w
    ensures After([x], w) == [x]
  {
    assert [x][..0] == [] && [] + [x] == [x];
  }

  /** With a limit of one the list holds the last passed request, which is also the latest. */
  lemma {:induction false} LastIsLatest(times: seq<real>)
    ensures var (kept, ds) := Serve(1, times); var past := Passed(times, ds);
      if past == [] then kept == []
      else kept == [past[|past| - 1]] && forall i :: 0 <= i < |past| ==> past[i] <= past[|past| - 1]
  {
    if times == [] {
      assert Passed([], []) == [];
    } else {
      var init, now := times[..|times| - 1], times[|times| - 1];
      LastIsLatest(init);
      assert times == init + [now];
      ServeSnoc(1, init, now);
      var (kept, ds) := Serve(1, init);
      PassedSnoc(init, ds, now, Admit(1, kept, now).1);
      hide Serve, Passed;
      OneKept(kept, now);
    }
  }

  lemma {:induction false} OneKept(kept: seq<real>, now: real)
    requires |kept| <= 1
    ensures Admit(1, kept, now) == if kept != [] && kept[0] > now - WINDOW then (kept, false) else ([now], true)
  {
    if kept != [] {
      assert kept == [] + [kept[0]];
      AfterSnoc([], kept[0], now - WINDOW);
    }
    assert [] + [now] == [now];
  }

  /** So it bounds every window on any clock. */
  lemma {:induction false} OneAtATime(times: seq<real>, w: real)
    ensures PassedIn(1, times, w) <= 1
  {
    hide Serve, Passed, Admit;
    if times == [] {
      NothingPassed(1, w);
    } else {
      var init, now := times[..|times| - 1], times[|times| - 1];
      OneAtATime(init, w);
      LastIsLatest(init);
      assert times == init + [now];
      ServeSnoc(1, init, now);
      var (kept, ds) := Serve(1, init);
      var past, d := Passed(init, ds), Admit(1, kept, now).1;
      PassedSnoc(init, ds, now, d);
      OneKept(kept, now);
      hide CountIn;
      if d {
        CountSnoc(past, now, w, w + WINDOW);
        if w < now <= w + WINDOW {
          CountNone(past, w, w + WINDOW);
        }
      } else {
        assert past + [] == past;
      }
    }
  }

  /** The bound holds on every clock that steps back by at most `d` exactly when it never steps back or the limit is one. */
  lemma {:induction false} BoundedOnClockIff(rpm: int, d: real)
    requires rpm > 0
    ensures BoundedOnClock(rpm, d) <==> d <= 0.0 || rpm == 1
  {
    hide PassedIn, Backward;
    if d <= 0.0 || rpm == 1 {
      forall times: seq<real>, w: real | StepsBackAtMost(times, d) ensures PassedIn(rpm, times, w) <= rpm {
        if rpm == 1 {
          OneAtATime(times, w);
        } else {
          WindowBoundPassedIn(rpm, times, w);
        }
      }
    } else {
      var s := if d <= 60.0 then d else 60.0;
      BackwardClock(rpm, s);
      assert StepsBackAtMost(Backward(rpm, s), d);
      assert PassedIn(rpm, Backward(rpm, s), 100.0 - s) > rpm;
    }
  }

  lemma {:induction false} WindowBoundPassedIn(rpm: int, times: seq<real>, w: real)
    requires rpm > 0 && NonDecreasing(times)
    ensures PassedIn(rpm, times, w) <= rpm
  {
    WindowBound(rpm, times, w);
  }

  /** So it holds on every clock exactly when the limit is one. */
  lemma {:induction false} BoundedOnAnyClockIffOne(rpm: int)
    requires rpm > 0
    ensures BoundedOnAnyClock(rpm) <==> rpm == 1
  {
    hide PassedIn, Backward;
    if rpm == 1 {
      forall times: seq<real>, w: real ensures PassedIn(rpm, times, w) <= rpm {
        OneAtATime(times, w);
      }
    } else {
      BackwardClock(rpm, 60.0);
      assert PassedIn(rpm, Backward(rpm, 60.0), 40.0) > rpm;
    }
  }

  // ---------------------------------------------------------------- the middleware

  datatype Request = Request(ip: Ip, at: real)

  /** One client's arrivals among all. */
  function TimesOf(rs: seq<Request>, ip: Ip): seq<real> {
    if rs == [] then []
    else TimesOf(rs[..|rs| - 1], ip) + if rs[|rs| - 1].ip == ip then [rs[|rs| - 1].at] else []
  }

  /** The decisions on one client's arrivals among all. */
  function DecisionsOf(rs: seq<Request>, ds: seq<bool>, ip: Ip): seq<bool>
    requires |rs| == |ds|
  {
    if rs == [] then []
    else DecisionsOf(rs[..|rs| - 1], ds[..|ds| - 1], ip) + if rs[|rs| - 1].ip == ip then [ds[|ds| - 1]] else []
  }

  lemma {:induction false} ArrivalsSnoc(rs: seq<Request>, ds: seq<bool>, r: Request, d: bool, ip: Ip)
    requires |rs| == |ds|
    ensures TimesOf(rs + [r], ip) == TimesOf(rs, ip) + (if r.ip == ip then [r.at] else [])
    ensures DecisionsOf(rs + [r], ds + [d], ip) == DecisionsOf(rs, ds, ip) + (if r.ip == ip then [d] else [])
  {
    assert (rs + [r])[..|rs|] == rs && (ds + [d])[..|ds|] == ds;
  }

  class RateLimitMiddleware {
    const requestsPerMinute: int
    var requestCounts: map<Ip, seq<real>>
    ghost var arrivals: seq<Request>
    ghost var decisions: seq<bool>

    function ListOf(ip: Ip): seq<real>
      reads `requestCounts
    {
      if ip in requestCounts then requestCounts[ip] else []
    }

    /** Each client is treated as if it were alone, whatever the interleaving. */
    ghost predicate Valid()
      reads this
    {
      && |decisions| == |arrivals|
      && forall ip :: (ListOf(ip), DecisionsOf(arrivals, decisions, ip)) == Serve(requestsPerMinute, TimesOf(arrivals, ip))
    }

    constructor (requestsPerMinute: int)
      ensures Valid() && arrivals == [] && this.requestsPerMinute == requestsPerMinute
    {
      this.requestsPerMinute, requestCounts, arrivals, decisions := requestsPerMinute, map[], [], [];
    }

    method Prune(ip: Ip, windowStart: real)
      modifies `requestCounts
      ensures ListOf(ip) == After(old(ListOf(ip)), windowStart)
      ensures forall other :: other != ip ==> ListOf(other) == old(ListOf(other))
    {
      var was, kept := ListOf(ip), [];
      for i := 0 to |was|
        invariant kept == After(was[..i], windowStart)
      {
        assert was[..i + 1][..i] == was[..i];
        if was[i] > windowStart {
          kept := kept + [was[i]];
        }
      }
      assert was[..|was|] == was;
      requestCounts := requestCounts[ip := kept];
    }

    /** One request; there is no suspension point between pruning and recording. */
    method Dispatch(ip: Ip, now: real) returns (passed: bool)
      requires Valid()
      modifies this
      ensures Valid() && arrivals == old(arrivals) + [Request(ip, now)] && decisions == old(decisions) + [passed]
    {
      hide After, Serve;
      ghost var r := Request(ip, now);
      passed := true;
      if requestsPerMinute > 0 {
        Prune(ip, now - WINDOW);
        if |ListOf(ip)| >= requestsPerMinute {
          passed := false;
        } else {
          requestCounts := requestCounts[ip := ListOf(ip) + [now]];
        }
      }
      assert (ListOf(ip), passed) == Admit(requestsPerMinute, old(ListOf(ip)), now);
      arrivals, decisions := arrivals + [r], decisions + [passed];
      forall other ensures (ListOf(other), DecisionsOf(arrivals, decisions, other)) == Serve(requestsPerMinute, TimesOf(arrivals, other)) {
        ArrivalsSnoc(old(arrivals), old(decisions), r, passed, other);
        ServeSnoc(requestsPerMinute, TimesOf(old(arrivals), ip), now);
        if other != ip {
          assert ListOf(other) == old(ListOf(other));
          assert TimesOf(old(arrivals), other) + [] == TimesOf(old(arrivals), other);
          assert DecisionsOf(old(arrivals), old(decisions), other) + [] == DecisionsOf(old(arrivals), old(decisions), other);
        }
      }
    }
  }
}
