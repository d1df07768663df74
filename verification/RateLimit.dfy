/**
 * The sliding-log limiter (ratelimit.go): the reference on values, what it promises over whole runs of
 * requests, and the implementation that compacts each key's log in its own backing array.
 */
module RateLimit {
  const SECOND := 1_000_000_000

  // ----- reference -------------------------------------------------------------------------------

  /** The times of a log that are still inside the window at `now`, in order. */
  function Recent(log: seq<int>, now: int, window: int): seq<int> {
    if log == [] then []
    else
      var init, t := Recent(log[..|log| - 1], now, window), log[|log| - 1];
      if now - t < window then init + [t] else init
  }

  datatype Decision = Decision(log: seq<int>, ok: bool, retryAfter: int)

  /** One request; a denial says how long until the oldest kept time leaves the window. */
  function Decide(log: seq<int>, limit: nat, window: int, now: int): Decision
    requires limit >= 1
  {
    var keep := Recent(log, now, window);
    if |keep| >= limit then Decision(keep, false, window - (now - keep[0]))
    else Decision(keep + [now], true, 0)
  }

  // ----- whole runs of one key ----------------------------------------------------------------------

  /** A route class: how many grants a window may hold. */
  datatype Policy = Policy(limit: nat, window: int)

  predicate Sound(p: Policy) {
    p.limit >= 1 && p.window > 0
  }

  /** A request of some class; the key does not name the class, so all classes share its log. */
  datatype Request = Request(policy: Policy, time: int)

  datatype History = History(log: seq<int>, grants: seq<Request>)

  /** The log kept and all grants ever made, after some requests on a key. */
  function Requests(reqs: seq<Request>): History
    requires forall r <- reqs :: Sound(r.policy)
  {
    if reqs == [] then History([], [])
    else
      var h, r := Requests(reqs[..|reqs| - 1]), reqs[|reqs| - 1];
      assert r in reqs && Sound(r.policy);
      var d := Decide(h.log, r.policy.limit, r.policy.window, r.time);
      History(d.log, if d.ok then h.grants + [r] else h.grants)
  }

  function Times(reqs: seq<Request>): (times: seq<int>)
    ensures |times| == |reqs| && forall i :: 0 <= i < |reqs| ==> times[i] == reqs[i].time
  {
    seq(|reqs|, i requires 0 <= i < |reqs| => reqs[i].time)
  }

  /** Requests in order of time, none after `now`. */
  predicate Served(reqs: seq<Request>, now: int) {
    (forall r <- reqs :: Sound(r.policy)) && UpTo(Times(reqs), now)
  }

  lemma ServedSnoc(reqs: seq<Request>, now: int)
    requires reqs != [] && Served(reqs, now)
    ensures Served(reqs[..|reqs| - 1], reqs[|reqs| - 1].time) && reqs[|reqs| - 1].time <= now
    ensures Sound(reqs[|reqs| - 1].policy)
  {
    assert forall r <- reqs[..|reqs| - 1] :: r in reqs;
    assert reqs[|reqs| - 1] in reqs;
  }

  lemma TimesSnoc(reqs: seq<Request>, r: Request)
    ensures Times(reqs + [r]) == Times(reqs) + [r.time]
  {
  }

  predicate Sorted(s: seq<int>) {
    forall i, j :: 0 <= i < j < |s| ==> s[i] <= s[j]
  }

  /** Times in order, none after `now`. */
  predicate UpTo(s: seq<int>, now: int) {
    Sorted(s) && forall i :: 0 <= i < |s| ==> s[i] <= now
  }

  lemma UpToSnoc(s: seq<int>, t: int, now: int)
    ensures UpTo(s + [t], now) <==> UpTo(s, t) && t <= now
  {
    var all := s + [t];
    assert all[|s|] == t && forall i :: 0 <= i < |s| ==> all[i] == s[i];
    if UpTo(all, now) {
      assert forall i :: 0 <= i < |s| ==> all[i] <= all[|s|];
    }
  }

  lemma UpToLater(s: seq<int>, t: int, now: int)
    requires UpTo(s, t) && t <= now
    ensures UpTo(s, now)
  {
  }

  lemma UpToDrop(s: seq<int>, k: nat, now: int)
    requires UpTo(s, now) && k <= |s|
    ensures UpTo(s[k..], now)
  {
  }

  /** What is recent of times in order is a tail of them: exactly those inside the window. */
  lemma {:induction false} RecentIsTail(log: seq<int>, now: int, window: int) returns (k: nat)
    requires Sorted(log)
    ensures k <= |log| && Recent(log, now, window) == log[k..]
    ensures forall i :: 0 <= i < |log| ==> (now - log[i] < window <==> k <= i)
    ensures k < |log| ==> now - log[k] < window
  {
    if log == [] {
      k := 0;
    } else {
      var n := |log| - 1;
      k := RecentIsTail(log[..n], now, window);
      assert log == log[..n] + [log[n]];
      RecentSnoc(log[..n], log[n], now, window);
      if now - log[n] >= window {
        NoneIsRecent(log, now, window);
        k := OldHaveNoTail(log[..n], k, now, window);
      } else {
        TailGrows(log, k);
      }
    }
  }

  lemma NoneIsRecent(log: seq<int>, now: int, window: int)
    requires Sorted(log) && log != [] && now - log[|log| - 1] >= window
    ensures forall i :: 0 <= i < |log| ==> now - log[i] >= window
  {
    forall i | 0 <= i < |log| - 1 ensures now - log[i] >= window {
      assert log[i] <= log[|log| - 1];
    }
  }

  lemma OldHaveNoTail(log: seq<int>, k: nat, now: int, window: int) returns (m: nat)
    requires k <= |log| && (k < |log| ==> now - log[k] < window)
    requires forall i :: 0 <= i < |log| ==> now - log[i] >= window
    ensures m == |log| + 1 && log[k..] == []
  {
    m := |log| + 1;
  }

  lemma TailGrows(log: seq<int>, k: nat)
    requires log != [] && k <= |log| - 1
    ensures log[..|log| - 1][k..] + [log[|log| - 1]] == log[k..]
  {
  }

  /** At a later time, or for a shorter window, the recent times are among those that were recent. */
  lemma {:induction false} RecentOfRecent(log: seq<int>, earlier: int, wide: int, now: int, window: int)
    requires earlier <= now && window <= wide
    ensures Recent(Recent(log, earlier, wide), now, window) == Recent(log, now, window)
  {
    if log != [] {
      var init, t := log[..|log| - 1], log[|log| - 1];
      RecentOfRecent(init, earlier, wide, now, window);
      RecentSnoc(Recent(init, earlier, wide), t, now, window);
    }
  }

  lemma RecentSnoc(log: seq<int>, t: int, now: int, window: int)
    ensures var recent := Recent(log, now, window);
            Recent(log + [t], now, window) == if now - t < window then recent + [t] else recent
  {
    assert (log + [t])[..|log|] == log;
  }

  lemma RequestsSnoc(reqs: seq<Request>, r: Request)
    requires (forall x <- reqs :: Sound(x.policy)) && Sound(r.policy)
    ensures forall x <- reqs + [r] :: Sound(x.policy)
    ensures var h := Requests(reqs);
            var d := Decide(h.log, r.policy.limit, r.policy.window, r.time);
            Requests(reqs + [r]) == History(d.log, if d.ok then h.grants + [r] else h.grants)
  {
    assert (reqs + [r])[..|reqs|] == reqs;
  }

  /** Log and grants are in order; the log ends with the last grant. */
  lemma {:induction false} RunsInOrder(reqs: seq<Request>, now: int)
    requires Served(reqs, now)
    ensures var h := Requests(reqs);
            && UpTo(h.log, now) && UpTo(Times(h.grants), now)
            && (h.grants == [] ==> h.log == [])
            && (h.grants != [] ==> h.log != [] && h.log[|h.log| - 1] == h.grants[|h.grants| - 1].time)
  {
    hide Recent, UpTo, Times;
    if reqs == [] {
      assert UpTo([], now) by { NoTimes(now); }
      assert Times([]) == [];
    } else {
      var init, r := reqs[..|reqs| - 1], reqs[|reqs| - 1];
      ServedSnoc(reqs, now);
      RunsInOrder(init, r.time);
      var h := Requests(init);
      var k := RecentIsTail(h.log, r.time, r.policy.window) by { InOrder(h.log, r.time); }
      UpToDrop(h.log, k, r.time);
      UpToSnoc(h.log[k..], r.time, now);
      UpToLater(h.log[k..], r.time, now);
      TimesSnoc(h.grants, r);
      UpToSnoc(Times(h.grants), r.time, now);
      UpToLater(Times(h.grants), r.time, now);
    }
  }

  lemma NoTimes(now: int)
    ensures UpTo([], now)
  {
  }

  lemma InOrder(s: seq<int>, now: int)
    requires UpTo(s, now)
    ensures Sorted(s)
  {
  }

  /** No class among the requests has a window shorter than `window`. */
  predicate NoShorter(reqs: seq<Request>, window: int) {
    forall r <- reqs :: window <= r.policy.window
  }

  /**
   * On a clock that does not go back, and while no class on the key has a shorter window, the pruned log stands
   * for the full history of grants: nothing is forgotten too early.
   */
  lemma {:induction false} LogIsRecentGrants(reqs: seq<Request>, now: int, window: int)
    requires Served(reqs, now) && NoShorter(reqs, window)
    ensures var h := Requests(reqs);
            Recent(h.log, now, window) == Recent(Times(h.grants), now, window)
  {
    hide Recent, UpTo, Times;
    if reqs == [] {
      assert Times([]) == [];
    } else {
      var init, r := reqs[..|reqs| - 1], reqs[|reqs| - 1];
      ServedSnoc(reqs, now);
      assert NoShorter(init, window) && r in reqs;
      LogIsRecentGrants(init, r.time, window);
      var h := Requests(init);
      RecentOfRecent(h.log, r.time, window, now, window);
      RecentOfRecent(Times(h.grants), r.time, window, now, window);
      RecentOfRecent(h.log, r.time, r.policy.window, now, window);
      TimesSnoc(h.grants, r);
      RecentSnoc(Recent(h.log, r.time, r.policy.window), r.time, now, window);
      RecentSnoc(Times(h.grants), r.time, now, window);
    }
  }

  /** Then a request is granted exactly when fewer than `limit` of all grants, of any class, are in its window. */
  lemma GrantedIffRoom(reqs: seq<Request>, p: Policy, now: int)
    requires Served(reqs, now) && NoShorter(reqs, p.window) && Sound(p)
    ensures var h := Requests(reqs);
            Decide(h.log, p.limit, p.window, now).ok <==> |Recent(Times(h.grants), now, p.window)| < p.limit
  {
    LogIsRecentGrants(reqs, now, p.window);
  }

  /** When one class was granted. */
  function GrantsOf(p: Policy, grants: seq<Request>): seq<int> {
    if grants == [] then []
    else
      var init, r := GrantsOf(p, grants[..|grants| - 1]), grants[|grants| - 1];
      if r.policy == p then init + [r.time] else init
  }

  lemma GrantsOfSnoc(p: Policy, grants: seq<Request>, r: Request)
    ensures GrantsOf(p, grants + [r]) ==
            if r.policy == p then GrantsOf(p, grants) + [r.time] else GrantsOf(p, grants)
  {
    assert (grants + [r])[..|grants|] == grants;
  }

  lemma {:induction false} FewerOfOneClass(p: Policy, grants: seq<Request>, now: int)
    requires UpTo(Times(grants), now)
    ensures UpTo(GrantsOf(p, grants), now)
    ensures |Recent(GrantsOf(p, grants), now, p.window)| <= |Recent(Times(grants), now, p.window)|
  {
    hide UpTo, Times, Recent;
    if grants == [] {
      assert UpTo([], now) by { NoTimes(now); }
      assert Recent([], now, p.window) == [] by { NothingRecent(now, p.window); }
    } else {
      var init, r := grants[..|grants| - 1], grants[|grants| - 1];
      assert grants == init + [r];
      TimesSnoc(init, r);
      UpToSnoc(Times(init), r.time, now);
      UpToLater(Times(init), r.time, now);
      FewerOfOneClass(p, init, now);
      FewerOfOneClassInOrder(p, init, r.time, now);
      RecentSnoc(Times(init), r.time, now, p.window);
      RecentSnoc(GrantsOf(p, init), r.time, now, p.window);
    }
  }

  lemma NothingRecent(now: int, window: int)
    ensures Recent([], now, window) == []
  {
  }

  lemma FewerOfOneClassInOrder(p: Policy, init: seq<Request>, t: int, now: int)
    requires UpTo(Times(init), t) && t <= now
    ensures UpTo(GrantsOf(p, init) + [t], now)
  {
    hide UpTo, Times;
    GrantsInOrder(p, init, t);
    UpToSnoc(GrantsOf(p, init), t, now);
  }

  lemma {:induction false} GrantsInOrder(p: Policy, grants: seq<Request>, now: int)
    requires UpTo(Times(grants), now)
    ensures UpTo(GrantsOf(p, grants), now)
  {
    hide UpTo, Times;
    if grants == [] {
      NoTimes(now);
    } else {
      var init, r := grants[..|grants| - 1], grants[|grants| - 1];
      assert grants == init + [r];
      TimesSnoc(init, r);
      UpToSnoc(Times(init), r.time, now);
      GrantsInOrder(p, init, r.time);
      UpToSnoc(GrantsOf(p, init), r.time, now);
      UpToLater(GrantsOf(p, init), r.time, now);
    }
  }

  // ----- the bound of a class -----------------------------------------------------------------------

  /** Of any `limit + 1` grants in a row, the last comes at least a window after the first. */
  predicate Spaced(g: seq<int>, limit: nat, window: int) {
    forall i :: 0 <= i && i + limit < |g| ==> g[i + limit] - g[i] >= window
  }

  lemma SpacedSnoc(g: seq<int>, t: int, limit: nat, window: int)
    requires limit >= 1 && UpTo(g, t) && Spaced(g, limit, window) && |Recent(g, t, window)| < limit
    ensures Spaced(g + [t], limit, window)
  {
    hide Recent;
    var k := RecentIsTail(g, t, window);
    assert |g| >= limit ==> t - g[|g| - limit] >= window;
  }

  /** A class keeps its bound on every mix of requests in which no other class has a shorter window. */
  lemma {:induction false} NeverMoreThanLimit(reqs: seq<Request>, p: Policy, now: int)
    requires Served(reqs, now) && NoShorter(reqs, p.window) && Sound(p)
    ensures Spaced(GrantsOf(p, Requests(reqs).grants), p.limit, p.window)
  {
    hide Recent, UpTo, Times, Spaced;
    if reqs == [] {
      assert Spaced([], p.limit, p.window) by { NoneSpaced(p); }
    } else {
      var init, r := reqs[..|reqs| - 1], reqs[|reqs| - 1];
      ServedSnoc(reqs, now);
      assert NoShorter(init, p.window);
      NeverMoreThanLimit(init, p, r.time);
      RunsInOrder(init, r.time);
      var grants := Requests(init).grants;
      GrantsOfSnoc(p, grants, r);
      if r.policy == p {
        GrantedIffRoom(init, p, r.time);
        FewerOfOneClass(p, grants, r.time);
        if Decide(Requests(init).log, p.limit, p.window, r.time).ok {
          SpacedSnoc(GrantsOf(p, grants), r.time, p.limit, p.window);
        }
      }
    }
  }

  lemma NoneSpaced(p: Policy)
    requires p.limit >= 1
    ensures Spaced([], p.limit, p.window)
  {
  }

  /** Any stretch of a class's grants shorter than its window, wherever it lies, holds at most `limit` of them. */
  lemma AtMostLimitPerWindow(reqs: seq<Request>, p: Policy, now: int, i: nat, j: nat)
    requires Served(reqs, now) && NoShorter(reqs, p.window) && Sound(p)
    requires i <= j < |GrantsOf(p, Requests(reqs).grants)|
    ensures var g := GrantsOf(p, Requests(reqs).grants);
            g[j] - g[i] < p.window ==> j - i + 1 <= p.limit
  {
    hide Requests, GrantsOf, Times, Recent;
    NeverMoreThanLimit(reqs, p, now);
    RunsInOrder(reqs, now);
    GrantsInOrder(p, Requests(reqs).grants, now);
    FewInARow(GrantsOf(p, Requests(reqs).grants), p, now, i, j);
  }

  lemma FewInARow(g: seq<int>, p: Policy, now: int, i: nat, j: nat)
    requires Spaced(g, p.limit, p.window) && UpTo(g, now) && i <= j < |g|
    ensures g[j] - g[i] < p.window ==> j - i + 1 <= p.limit
  {
    if j - i >= p.limit {
      assert g[j] >= g[i + p.limit];
    }
  }

  /** A limit of one is kept on every mix: the last grant of any class is never forgotten. */
  lemma {:induction false} OneIsAlwaysKept(reqs: seq<Request>, p: Policy, now: int)
    requires Served(reqs, now) && Sound(p) && p.limit == 1
    ensures Spaced(GrantsOf(p, Requests(reqs).grants), 1, p.window)
  {
    hide Recent, UpTo, Times, Spaced;
    if reqs == [] {
      assert Spaced([], 1, p.window) by { NoneSpaced(p); }
    } else {
      var init, r := reqs[..|reqs| - 1], reqs[|reqs| - 1];
      ServedSnoc(reqs, now);
      OneIsAlwaysKept(init, p, r.time);
      RunsInOrder(init, r.time);
      var h := Requests(init);
      GrantsOfSnoc(p, h.grants, r);
      if r.policy == p && Decide(h.log, 1, p.window, r.time).ok {
        LastGrantIsOld(h, p, r.time);
        SpacedSnoc(GrantsOf(p, h.grants), r.time, 1, p.window);
      }
    }
  }

  lemma LastGrantIsOld(h: History, p: Policy, now: int)
    requires Sound(p) && p.limit == 1 && Decide(h.log, 1, p.window, now).ok
    requires UpTo(h.log, now) && UpTo(Times(h.grants), now)
    requires h.grants != [] ==> h.log != [] && h.log[|h.log| - 1] == h.grants[|h.grants| - 1].time
    ensures UpTo(GrantsOf(p, h.grants), now) && |Recent(GrantsOf(p, h.grants), now, p.window)| < 1
  {
    hide Recent;
    FewerOfOneClass(p, h.grants, now);
    var k := RecentIsTail(h.log, now, p.window);
    var m := RecentIsTail(Times(h.grants), now, p.window);
    if h.grants != [] {
      assert now - Times(h.grants)[|h.grants| - 1] >= p.window;
    }
  }

  function Same<T>(x: T, n: nat): (s: seq<T>)
    ensures |s| == n && forall i :: 0 <= i < n ==> s[i] == x
  {
    if n == 0 then [] else Same(x, n - 1) + [x]
  }

  /** A class may use its whole limit at once. */
  lemma {:induction false} Burst(p: Policy, n: nat)
    requires Sound(p) && n <= p.limit
    ensures var reqs := Same(Request(p, 0), n);
            && Served(reqs, 0) && Requests(reqs) == History(Same(0, n), reqs)
            && GrantsOf(p, reqs) == Same(0, n)
  {
    hide Requests, Recent, GrantsOf;
    if n == 0 {
      assert Requests([]) == History([], []) && GrantsOf(p, []) == [] by { NoRequests(p); }
    } else {
      Burst(p, n - 1);
      RequestsSnoc(Same(Request(p, 0), n - 1), Request(p, 0));
      GrantsOfSnoc(p, Same(Request(p, 0), n - 1), Request(p, 0));
      RecentKeepsAll(Same(0, n - 1), 0, p.window);
    }
  }

  lemma NoRequests(p: Policy)
    ensures Requests([]) == History([], []) && GrantsOf(p, []) == []
  {
  }

  /** A burst, then a request of the shorter window, then one of the class again: all are granted. */
  lemma AllAreGranted(p: Policy, o: Policy, burst: seq<Request>, zeros: seq<int>)
    requires Sound(p) && Sound(o) && p.limit >= 2 && o.window < p.window
    requires (forall r <- burst :: Sound(r.policy)) && Requests(burst) == History(zeros, burst)
    requires forall i :: 0 <= i < |zeros| ==> zeros[i] == 0
    ensures var reqs := burst + [Request(o, o.window)] + [Request(p, o.window)];
            (forall r <- reqs :: Sound(r.policy)) && Requests(reqs).grants == reqs
  {
    hide Requests, Recent;
    var two := burst + [Request(o, o.window)];
    RequestsSnoc(burst, Request(o, o.window));
    AllForgotten(zeros, o.window);
    OneRecent(o.window, p.window);
    assert Requests(two) == History([o.window], two);
    RequestsSnoc(two, Request(p, o.window));
  }

  lemma BurstThenTwo(p: Policy, o: Policy, burst: seq<Request>)
    requires p != o && Served(burst, 0) && Sound(p) && Sound(o)
    ensures var reqs := burst + [Request(o, o.window)] + [Request(p, o.window)];
            && Served(reqs, o.window) && GrantsOf(p, reqs) == GrantsOf(p, burst) + [o.window]
  {
    hide GrantsOf;
    var two := burst + [Request(o, o.window)];
    GrantsOfSnoc(p, burst, Request(o, o.window));
    GrantsOfSnoc(p, two, Request(p, o.window));
  }

  /** Requests of two classes, at most, after which the first has had more grants than its limit within its window. */
  ghost predicate Exceeds(p: Policy, o: Policy, reqs: seq<Request>) {
    && Served(reqs, o.window) && (forall r <- reqs :: r.policy == p || r.policy == o)
    && !Spaced(GrantsOf(p, Requests(reqs).grants), p.limit, p.window)
  }

  /** One request of a shorter window makes the key forget a burst: the class gets one grant too many. */
  lemma ShorterWindowForgets(p: Policy, o: Policy)
    requires Sound(p) && Sound(o) && p.limit >= 2 && o.window < p.window
    ensures exists reqs :: Exceeds(p, o, reqs)
  {
    hide Requests, GrantsOf, Same, Served;
    var burst, zeros := Same(Request(p, 0), p.limit), Same(0, p.limit);
    var reqs := burst + [Request(o, o.window)] + [Request(p, o.window)];
    Burst(p, p.limit);
    assert forall r <- burst :: r == Request(p, 0);
    BurstThenTwo(p, o, burst);
    AllAreGranted(p, o, burst, zeros);
    var g := zeros + [o.window];
    assert GrantsOf(p, Requests(reqs).grants) == g;
    assert g[0 + p.limit] - g[0] < p.window;
    assert Exceeds(p, o, reqs);
  }

  lemma {:induction false} AllForgotten(log: seq<int>, window: int)
    requires forall i :: 0 <= i < |log| ==> log[i] == 0
    ensures Recent(log, window, window) == []
  {
    if log != [] {
      AllForgotten(log[..|log| - 1], window);
    }
  }

  lemma OneRecent(t: int, window: int)
    requires window > 0
    ensures Recent([t], t, window) == [t] && [] + [t] == [t]
  {
    assert [t][..0] == [];
    NothingRecent(t, window);
  }

  /** The class keeps its bound on every mix with the others. */
  ghost predicate KeepsBound(p: Policy, others: set<Policy>) {
    forall reqs: seq<Request>, now: int ::
      Served(reqs, now) && (forall r <- reqs :: r.policy == p || r.policy in others) ==>
      Spaced(GrantsOf(p, Requests(reqs).grants), p.limit, p.window)
  }

  /** Exactly when its limit is one or none of the others has a shorter window. */
  lemma KeepsBoundIff(p: Policy, others: set<Policy>)
    requires Sound(p) && forall o <- others :: Sound(o)
    ensures KeepsBound(p, others) <==> p.limit == 1 || forall o <- others :: p.window <= o.window
  {
    hide Spaced, GrantsOf, Requests;
    if p.limit == 1 || forall o <- others :: p.window <= o.window {
      forall reqs: seq<Request>, now: int | Served(reqs, now) && forall r <- reqs :: r.policy == p || r.policy in others
        ensures Spaced(GrantsOf(p, Requests(reqs).grants), p.limit, p.window)
      {
        if p.limit == 1 {
          OneIsAlwaysKept(reqs, p, now);
        } else {
          NeverMoreThanLimit(reqs, p, now);
        }
      }
    } else {
      var o :| o in others && o.window < p.window;
      ShorterWindowForgets(p, o);
      var reqs :| Exceeds(p, o, reqs);
    }
  }

  // ----- Retry-After --------------------------------------------------------------------------------

  lemma {:induction false} RecentKeepsAll(log: seq<int>, now: int, window: int)
    requires forall i :: 0 <= i < |log| ==> now - log[i] < window
    ensures Recent(log, now, window) == log
  {
    if log != [] {
      RecentKeepsAll(log[..|log| - 1], now, window);
    }
  }

  /** A log too full for a class until `release`: by then all but `limit - 1` of it have left the window. */
  predicate FullUntil(log: seq<int>, p: Policy, release: int) {
    1 <= p.limit <= |log| && Sorted(log) && release == log[|log| - p.limit] + p.window
  }

  /** Until then requests of the class are denied, and keep the log as full; from then on they are granted. */
  lemma DeniedUntil(log: seq<int>, p: Policy, release: int, t: int)
    requires Sound(p) && FullUntil(log, p, release)
    ensures var d := Decide(log, p.limit, p.window, t);
            && (d.ok <==> t >= release)
            && (!d.ok ==> FullUntil(d.log, p, release) && d.retryAfter == d.log[0] + p.window - t > 0)
  {
    hide Recent;
    var k := RecentIsTail(log, t, p.window);
    if t < release {
      assert t - log[|log| - p.limit] < p.window;
      assert log[k..][|log| - k - p.limit] == log[|log| - p.limit];
    }
  }

  /** A full log, in order, denies every request until its oldest time expires, and none of them changes it. */
  lemma FullLogDenies(log: seq<int>, limit: nat, window: int, t: int)
    requires limit >= 1 && |log| == limit && Sorted(log)
    requires t < log[0] + window
    ensures Decide(log, limit, window, t) == Decision(log, false, log[0] + window - t)
  {
    assert forall i :: 0 <= i < |log| ==> log[0] <= log[i];
    RecentKeepsAll(log, t, window);
  }

  lemma ExpiredLogGrants(log: seq<int>, limit: nat, window: int, t: int)
    requires limit >= 1 && |log| == limit && Sorted(log) && t >= log[0] + window
    ensures Decide(log, limit, window, t).ok
  {
    hide Recent;
    var k := RecentIsTail(log, t, window);
    assert k >= 1;
  }

  /** When a denied class is next granted: once few enough of the kept times are in its window. */
  function Release(kept: seq<int>, p: Policy): int
    requires p.limit <= |kept| && p.limit >= 1
  {
    kept[|kept| - p.limit] + p.window
  }

  /** A denial leaves a log that is full until its release; Retry-After points at the oldest time instead. */
  lemma DeniedLog(reqs: seq<Request>, p: Policy, now: int)
    requires Served(reqs, now) && Sound(p)
    requires !Decide(Requests(reqs).log, p.limit, p.window, now).ok
    ensures var d := Decide(Requests(reqs).log, p.limit, p.window, now);
            && FullUntil(d.log, p, Release(d.log, p)) && d.retryAfter == d.log[0] + p.window - now > 0
            && now + d.retryAfter <= Release(d.log, p)
  {
    hide Recent;
    RunsInOrder(reqs, now);
    var log := Requests(reqs).log;
    var k := RecentIsTail(log, now, p.window);
  }

  /**
   * After a denial, requests of the class made before the release, however many, are all denied, and the first
   * from then on is granted. What Retry-After announces is never later, and is the release itself exactly when
   * as old a time as the oldest kept must leave; always when no class on the key has a larger limit.
   */
  lemma RetryAfterIsTight(reqs: seq<Request>, p: Policy, now: int, more: seq<Request>, t: int)
    requires Served(reqs, now) && Sound(p)
    requires var d := Decide(Requests(reqs).log, p.limit, p.window, now);
             !d.ok && forall r <- more :: r.policy == p && r.time < Release(d.log, p)
    ensures forall r <- reqs + [Request(p, now)] + more :: Sound(r.policy)
    ensures var d := Decide(Requests(reqs).log, p.limit, p.window, now);
            var log := Requests(reqs + [Request(p, now)] + more).log;
            && d.retryAfter > 0 && now + d.retryAfter <= Release(d.log, p)
            && (Decide(log, p.limit, p.window, t).ok <==> t >= Release(d.log, p))
            && (now + d.retryAfter == Release(d.log, p) <==> d.log[0] == d.log[|d.log| - p.limit])
            && ((forall r <- reqs :: r.policy.limit <= p.limit) ==> now + d.retryAfter == Release(d.log, p))
  {
    hide Recent, UpTo, Sorted, Requests;
    DeniedLog(reqs, p, now);
    var d := Decide(Requests(reqs).log, p.limit, p.window, now);
    RequestsSnoc(reqs, Request(p, now));
    StillFull(reqs + [Request(p, now)], p, Release(d.log, p), more);
    DeniedUntil(Requests(reqs + [Request(p, now)] + more).log, p, Release(d.log, p), t);
    if forall r <- reqs :: r.policy.limit <= p.limit {
      LogAtMost(reqs, p.limit);
      RecentNotLonger(Requests(reqs).log, now, p.window);
    }
  }

  lemma {:induction false} StillFull(reqs: seq<Request>, p: Policy, release: int, more: seq<Request>)
    requires (forall r <- reqs :: Sound(r.policy)) && Sound(p) && FullUntil(Requests(reqs).log, p, release)
    requires forall r <- more :: r.policy == p && r.time < release
    ensures forall r <- reqs + more :: Sound(r.policy)
    ensures FullUntil(Requests(reqs + more).log, p, release)
  {
    hide Requests, FullUntil;
    if more == [] {
      assert reqs + more == reqs;
    } else {
      var n := |more| - 1;
      StillFull(reqs, p, release, more[..n]);
      assert reqs + more == reqs + more[..n] + [more[n]];
      RequestsSnoc(reqs + more[..n], more[n]);
      DeniedUntil(Requests(reqs + more[..n]).log, p, release, more[n].time);
    }
  }

  /** The log never outgrows the largest limit on the key. */
  lemma {:induction false} LogAtMost(reqs: seq<Request>, limit: nat)
    requires forall r <- reqs :: Sound(r.policy) && r.policy.limit <= limit
    ensures |Requests(reqs).log| <= limit
  {
    hide Recent;
    if reqs != [] {
      var init, r := reqs[..|reqs| - 1], reqs[|reqs| - 1];
      assert r in reqs;
      LogAtMost(init, limit);
      RecentNotLonger(Requests(init).log, r.time, r.policy.window);
    }
  }

  lemma {:induction false} RecentNotLonger(log: seq<int>, now: int, window: int)
    ensures |Recent(log, now, window)| <= |log|
  {
    if log != [] {
      RecentNotLonger(log[..|log| - 1], now, window);
    }
  }

  /** The header carries whole seconds, rounded down and at least one. */
  function HeaderSeconds(retryAfter: int): int
    requires retryAfter > 0
  {
    if retryAfter / SECOND < 1 then 1 else retryAfter / SECOND
  }

  /** A client that waits what the header says is granted exactly when nothing was rounded away. */
  lemma HeaderIsEnoughIff(log: seq<int>, limit: nat, window: int, now: int)
    requires limit >= 1 && |log| == limit && Sorted(log)
    requires now < log[0] + window
    ensures var r := Decide(log, limit, window, now).retryAfter;
            r > 0 && (Decide(log, limit, window, now + HeaderSeconds(r) * SECOND).ok <==> r < SECOND || r % SECOND == 0)
  {
    FullLogDenies(log, limit, window, now);
    var r := Decide(log, limit, window, now).retryAfter;
    var t := now + HeaderSeconds(r) * SECOND;
    if t < log[0] + window {
      FullLogDenies(log, limit, window, t);
    } else {
      ExpiredLogGrants(log, limit, window, t);
    }
  }

  // ----- policy ---------------------------------------------------------------------------------------

  function RatePolicy(route: string): (p: Policy)
    ensures Sound(p)
  {
    match route
    case "auth" => Policy(10, 300 * SECOND)
    case "payout" => Policy(5, 3600 * SECOND)
    case _ => Policy(100, 60 * SECOND)
  }

  lemma NoMoreThanBurst(p: Policy, t: int)
    requires Sound(p) && t >= 0
    ensures forall r <- Same(Request(p, 0), p.limit) :: Sound(r.policy)
    ensures Decide(Requests(Same(Request(p, 0), p.limit)).log, p.limit, p.window, t).ok <==> t >= p.window
  {
    hide Requests, Recent, GrantsOf;
    Burst(p, p.limit);
    DeniedUntil(Same(0, p.limit), p, p.window, t);
  }

  /**
   * The classes in numbers: ten logins at once use up five minutes, five payouts an hour, a hundred other requests a
   * minute; each of them is granted, and the next one not before the time is over.
   */
  lemma BurstsInNumbers(route: string, t: int)
    requires t >= 0
    ensures var p := RatePolicy(route);
            var burst := if route == "auth" then 10 else if route == "payout" then 5 else 100;
            var seconds := if route == "auth" then 300 else if route == "payout" then 3600 else 60;
            && (forall r <- Same(Request(p, 0), burst) :: Sound(r.policy))
            && Requests(Same(Request(p, 0), burst)).grants == Same(Request(p, 0), burst)
            && (Decide(Requests(Same(Request(p, 0), burst)).log, p.limit, p.window, t).ok <==>
                t >= seconds * 1_000_000_000)
  {
    hide Requests, Recent, GrantsOf, Same;
    var p := RatePolicy(route);
    Burst(p, p.limit);
    NoMoreThanBurst(p, t);
  }

  /** The header is at least one second, and else the whole seconds of the delay. */
  lemma HeaderInNumbers(retryAfter: int)
    requires retryAfter > 0
    ensures var h := HeaderSeconds(retryAfter);
            && h >= 1 && retryAfter < (h + 1) * 1_000_000_000
            && (retryAfter >= 1_000_000_000 ==> h * 1_000_000_000 <= retryAfter)
            && (retryAfter < 1_000_000_000 ==> h == 1)
  {
  }

  /** Of the gateway's classes only the default one keeps its bound on every mix; the others can be outrun. */
  lemma WhichClassesKeepTheirBound()
    ensures var auth, payout, other := RatePolicy("auth"), RatePolicy("payout"), RatePolicy("");
            && KeepsBound(other, {auth, payout, other})
            && !KeepsBound(auth, {auth, payout, other}) && !KeepsBound(payout, {auth, payout, other})
            && KeepsBound(auth, {auth, payout}) && !KeepsBound(payout, {auth, payout})
  {
    hide KeepsBound;
    var auth, payout, other := RatePolicy("auth"), RatePolicy("payout"), RatePolicy("");
    assert other.window < auth.window < payout.window;
    assert other in {auth, payout, other} && auth in {auth, payout};
    KeepsBoundIff(other, {auth, payout, other});
    KeepsBoundIff(auth, {auth, payout, other});
    KeepsBoundIff(payout, {auth, payout, other});
    KeepsBoundIff(auth, {auth, payout});
    KeepsBoundIff(payout, {auth, payout});
  }

  // ----- implementation --------------------------------------------------------------------------

  /** A Go slice: a backing array and how much of it is in use. */
  datatype Slice = Slice(arr: array<int>, len: nat)

  class MemLimiter {
    var hits: map<string, Slice>

    /** Every key has its own backing array, and uses no more than there is of it. */
    ghost predicate Valid()
      reads this
    {
      && (forall k <- hits :: hits[k].len <= hits[k].arr.Length)
      && (forall j <- hits, k <- hits :: j != k ==> hits[j].arr != hits[k].arr)
    }

    ghost function Arrays(): set<array<int>>
      reads this
    {
      set k <- hits :: hits[k].arr
    }

    /** The log kept for a key; a key never used has an empty one. */
    ghost function Log(key: string): seq<int>
      requires Valid()
      reads this, Arrays()
    {
      if key in hits then hits[key].arr[..hits[key].len] else []
    }

    constructor ()
      ensures Valid() && forall k :: Log(k) == []
    {
      hits := map[];
    }

    /** Reading and writing the same array, the write index never passing the read index. */
    static method Compact(arr: array<int>, len: nat, window: int, now: int) returns (kept: nat)
      requires len <= arr.Length
      modifies arr
      ensures kept <= len && arr[..kept] == Recent(old(arr[..len]), now, window)
    {
      ghost var log := arr[..len];
      kept := 0;
      for i := 0 to len
        invariant kept <= i
        invariant arr[..kept] == Recent(log[..i], now, window)
        invariant forall j :: i <= j < len ==> arr[j] == log[j]
      {
        assert log[..i + 1][..i] == log[..i];
        if now - arr[i] < window {
          arr[kept] := arr[i];
          kept := kept + 1;
        }
      }
      assert log[..len] == log;
    }

    /** Append in place while there is room, else into a larger array. */
    static method Append(s: Slice, t: int) returns (r: Slice)
      requires s.len <= s.arr.Length
      modifies s.arr
      ensures r.len == s.len + 1 <= r.arr.Length
      ensures r.arr[..r.len] == old(s.arr[..s.len]) + [t]
      ensures r.arr == s.arr || fresh(r.arr)
    {
      if s.len < s.arr.Length {
        s.arr[s.len] := t;
        r := Slice(s.arr, s.len + 1);
      } else {
        var bigger := new int[2 * s.len + 1];
        for i := 0 to s.len
          invariant forall j :: 0 <= j < i ==> bigger[j] == s.arr[j]
          invariant unchanged(s.arr)
        {
          bigger[i] := s.arr[i];
        }
        bigger[s.len] := t;
        r := Slice(bigger, s.len + 1);
      }
    }

    method Allow(key: string, limit: nat, window: int, now: int) returns (ok: bool, retryAfter: int)
      requires Valid() && limit >= 1
      modifies this, Arrays()
      ensures Valid()
      ensures Decision(Log(key), ok, retryAfter) == Decide(old(Log(key)), limit, window, now)
      ensures forall k :: k != key ==> Log(k) == old(Log(k))
    {
      var s: Slice;
      if key in hits {
        s := hits[key];
      } else {
        var none := new int[0];
        s := Slice(none, 0);
      }
      ghost var log := s.arr[..s.len];
      assert log == Log(key);
      var kept := Compact(s.arr, s.len, window, now);
      if kept >= limit {
        hits := hits[key := Slice(s.arr, kept)];
        assert s.arr[0] == s.arr[..kept][0];
        return false, window - (now - s.arr[0]);
      }
      var grown := Append(Slice(s.arr, kept), now);
      hits := hits[key := grown];
      return true, 0;
    }
  }
}
