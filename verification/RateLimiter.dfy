/** The per-identity sliding-window limit of the automation API (na_sso/api_contract.py). */
module RateLimiter {
  import opened Prelude

  type Identity = string

  const WINDOW_SECONDS: real := 60.0

  datatype Verdict = Admitted(remaining: nat) | Refused(retryAfter: int)

  /** The left end of the deque is dropped while it is a full window old. */
  function Evict(window: seq<real>, now: real): seq<real> {
    if window != [] && window[0] <= now - WINDOW_SECONDS then Evict(window[1..], now) else window
  }

  function RetryAfter(oldest: real, now: real): int {
    var wait := (WINDOW_SECONDS - (now - oldest)).Floor;
    if wait < 1 then 1 else wait
  }

  /** One request against one identity's deque. */
  function Decide(window: seq<real>, limit: nat, now: real): (seq<real>, Verdict)
    requires limit >= 1
  {
    var kept := Evict(window, now);
    if |kept| >= limit then (kept, Refused(RetryAfter(kept[0], now)))
    else (kept + [now], Admitted(limit - |kept| - 1))
  }

  class Limiter {
    const limit: nat
    var windows: map<Identity, seq<real>>

    constructor (limit: nat)
      requires limit >= 1
      ensures this.limit == limit && windows == map[]
    {
      this.limit := limit;
      windows := map[];
    }

    function Window(identity: Identity): seq<real>
      reads this
    {
      if identity in windows then windows[identity] else []
    }

    method RateLimit(identity: Identity, now: real) returns (v: Verdict)
      requires limit >= 1
      modifies this`windows
      ensures (Window(identity), v) == Decide(old(Window(identity)), limit, now)
      ensures windows == old(windows)[identity := Window(identity)]
    {
      var window := Window(identity);
      while window != [] && window[0] <= now - WINDOW_SECONDS
        invariant Evict(window, now) == Evict(old(Window(identity)), now)
        decreases |window|
      {
        window := window[1..];
      }
      if |window| >= limit {
        var retryAfter := (WINDOW_SECONDS - (now - window[0])).Floor;
        if retryAfter < 1 {
          retryAfter := 1;
        }
        windows := windows[identity := window];
        return Refused(retryAfter);
      }
      window := window + [now];
      windows := windows[identity := window];
      return Admitted(limit - |window|);
    }
  }

  // ---- the history behind a deque ----

  /** Everything one identity was ever admitted for, oldest first, and the deque now. */
  datatype History = History(log: seq<real>, window: seq<real>)

  ghost predicate Sorted(s: seq<real>) {
    forall i, j | 0 <= i <= j < |s| :: s[i] <= s[j]
  }

  function Next(limit: nat, h: History, now: real): History
    requires limit >= 1
  {
    var (window, verdict) := Decide(h.window, limit, now);
    History(if verdict.Admitted? then h.log + [now] else h.log, window)
  }

  function Replay(limit: nat, requests: seq<real>): History
    requires limit >= 1
  {
    if requests == [] then History([], []) else Next(limit, Replay(limit, Front(requests)), Last(requests))
  }

  /** The admissions of an interval (t - 60, t], by position. */
  function Within(log: seq<real>, t: real): set<nat> {
    set i: nat | i < |log| && t - WINDOW_SECONDS < log[i] <= t
  }

  /** The deque is the recent end of the log, and any `limit` + 1 consecutive admissions
      span a full window. */
  ghost predicate Tracked(h: History, limit: nat, now: real) {
    && Sorted(h.log) && (forall i | 0 <= i < |h.log| :: h.log[i] <= now)
    && |h.window| <= limit && |h.window| <= |h.log|
    && h.window == h.log[|h.log| - |h.window|..]
    && (forall i | 0 <= i < |h.log| - |h.window| :: h.log[i] <= now - WINDOW_SECONDS)
    && (forall i | 0 <= i && i + limit < |h.log| :: h.log[i] + WINDOW_SECONDS <= h.log[i + limit])
  }

  lemma {:induction false} EvictIsSuffix(window: seq<real>, now: real)
    requires Sorted(window)
    ensures
      var kept := Evict(window, now);
      && |kept| <= |window| && kept == window[|window| - |kept|..]
      && (forall i | 0 <= i < |window| - |kept| :: window[i] <= now - WINDOW_SECONDS)
      && (forall i | 0 <= i < |kept| :: kept[i] > now - WINDOW_SECONDS)
  {
    if window != [] && window[0] <= now - WINDOW_SECONDS {
      EvictIsSuffix(window[1..], now);
      var kept := Evict(window, now);
      assert window[1..][|window| - 1 - |kept|..] == window[|window| - |kept|..];
      forall i | 0 <= i < |window| - |kept|
        ensures window[i] <= now - WINDOW_SECONDS
      {
        if i > 0 {
          assert window[i] == window[1..][i - 1];
        }
      }
    }
  }

  function Range(lo: nat, hi: nat): (r: set<nat>)
    ensures forall i :: i in r <==> lo <= i < hi
    ensures lo <= hi ==> |r| == hi - lo
    decreases hi - lo
  {
    if lo >= hi then {} else {lo} + Range(lo + 1, hi)
  }

  lemma SuffixSorted(log: seq<real>, n: nat)
    requires n <= |log| && Sorted(log)
    ensures Sorted(log[n..])
  {
  }

  /** Evicting keeps exactly the admissions of the last window. */
  lemma {:induction false} EvictedDequeIsWindow(h: History, limit: nat, before: real, now: real)
    requires Tracked(h, limit, before) && before <= now
    ensures
      var kept := Evict(h.window, now);
      && |kept| <= |h.window| && kept == h.log[|h.log| - |kept|..]
      && (forall i | 0 <= i < |h.log| - |kept| :: h.log[i] <= now - WINDOW_SECONDS)
      && (forall i | |h.log| - |kept| <= i < |h.log| :: h.log[i] > now - WINDOW_SECONDS)
  {
    SuffixSorted(h.log, |h.log| - |h.window|);
    EvictIsSuffix(h.window, now);
    SuffixOfSuffix(h, Evict(h.window, now), now);
  }

  lemma SuffixOfSuffix(h: History, kept: seq<real>, now: real)
    requires |kept| <= |h.window| <= |h.log|
    requires h.window == h.log[|h.log| - |h.window|..] && kept == h.window[|h.window| - |kept|..]
    requires forall i | 0 <= i < |h.log| - |h.window| :: h.log[i] <= now - WINDOW_SECONDS
    requires forall i | 0 <= i < |h.window| - |kept| :: h.window[i] <= now - WINDOW_SECONDS
    requires forall i | 0 <= i < |kept| :: kept[i] > now - WINDOW_SECONDS
    ensures kept == h.log[|h.log| - |kept|..]
    ensures forall i | 0 <= i < |h.log| - |kept| :: h.log[i] <= now - WINDOW_SECONDS
    ensures forall i | |h.log| - |kept| <= i < |h.log| :: h.log[i] > now - WINDOW_SECONDS
  {
  }

  lemma {:induction false} DequeCountsWindow(h: History, limit: nat, before: real, now: real)
    requires Tracked(h, limit, before) && before <= now
    ensures |Within(h.log, now)| == |Evict(h.window, now)|
  {
    EvictedDequeIsWindow(h, limit, before, now);
    var n := |h.log|;
    var k := |Evict(h.window, now)|;
    forall i: nat
      ensures i in Within(h.log, now) <==> i in Range(n - k, n)
    {
    }
    assert Within(h.log, now) == Range(n - k, n);
  }

  lemma DecideKeepsTracked(h: History, limit: nat, before: real, now: real)
    requires limit >= 1 && Tracked(h, limit, before) && before <= now
    ensures Tracked(Next(limit, h, now), limit, now)
  {
    EvictedDequeIsWindow(h, limit, before, now);
    var kept := Evict(h.window, now);
    if |kept| < limit {
      AdmissionKeepsTracked(h.log, kept, limit, now);
    }
  }

  lemma AdmissionKeepsTracked(log: seq<real>, kept: seq<real>, limit: nat, now: real)
    requires |kept| < limit && Tracked(History(log, kept), limit, now)
    ensures Tracked(History(log + [now], kept + [now]), limit, now)
  {
  }

  lemma {:induction false} ReplayTracked(limit: nat, requests: seq<real>)
    requires limit >= 1 && Sorted(requests)
    ensures requests == [] ==> Replay(limit, requests) == History([], [])
    ensures requests != [] ==> Tracked(Replay(limit, requests), limit, Last(requests))
  {
    if requests != [] {
      var earlier := Front(requests);
      var now := Last(requests);
      ReplayTracked(limit, earlier);
      var h := Replay(limit, earlier);
      var before := if earlier == [] then now else Last(earlier);
      assert Tracked(h, limit, before);
      DecideKeepsTracked(h, limit, before, now);
    }
  }

  lemma FarApart(log: seq<real>, limit: nat, i: nat, j: nat)
    requires Sorted(log) && i + limit <= j < |log|
    requires forall k | 0 <= k && k + limit < |log| :: log[k] + WINDOW_SECONDS <= log[k + limit]
    ensures log[i] + WINDOW_SECONDS <= log[j]
  {
    assert log[i] + WINDOW_SECONDS <= log[i + limit] <= log[j];
  }

  /** No interval of one window length ever holds more than `limit` admissions. */
  lemma {:induction false} WindowBound(limit: nat, requests: seq<real>, t: real)
    requires limit >= 1 && Sorted(requests)
    ensures |Within(Replay(limit, requests).log, t)| <= limit
  {
    ReplayTracked(limit, requests);
    var log := Replay(limit, requests).log;
    var inside := Within(log, t);
    if inside != {} {
      var first := Least(inside);
      forall i | i in inside
        ensures first <= i < first + limit
      {
        if first + limit <= i {
          FarApart(log, limit, first, i);
        }
      }
      SubsetSize(inside, Range(first, first + limit));
    }
  }

  lemma {:induction false} Least(s: set<nat>) returns (least: nat)
    requires s != {}
    ensures least in s && forall i | i in s :: least <= i
    decreases |s|
  {
    var some :| some in s;
    if s == {some} {
      return some;
    }
    assert s - {some} != {} by {
      assert s == {some} + (s - {some});
    }
    var rest := Least(s - {some});
    return if rest <= some then rest else some;
  }

  /** The limiter is exact: a request is admitted if and only if fewer than `limit` earlier
      ones were admitted in the window that ends with it. A refusal asks for a wait of one
      to sixty seconds. */
  lemma {:induction false} AdmittedIff(limit: nat, requests: seq<real>, now: real)
    requires limit >= 1 && Sorted(requests + [now])
    ensures
      var h := Replay(limit, requests);
      var verdict := Decide(h.window, limit, now).1;
      && (verdict.Admitted? <==> |Within(h.log, now)| < limit)
      && (verdict.Admitted? ==> verdict.remaining == limit - |Within(h.log, now)| - 1)
      && (verdict.Refused? ==> 1 <= verdict.retryAfter <= 60)
  {
    var all := requests + [now];
    forall i, j | 0 <= i <= j < |requests|
      ensures requests[i] <= requests[j]
    {
      assert all[i] <= all[j];
    }
    ReplayTracked(limit, requests);
    var h := Replay(limit, requests);
    if requests != [] {
      assert Last(requests) == all[|requests| - 1] <= all[|requests|];
      EvictedDequeIsWindow(h, limit, Last(requests), now);
      DequeCountsWindow(h, limit, Last(requests), now);
    } else {
      assert Within(h.log, now) == {};
    }
    var kept := Evict(h.window, now);
    if |kept| >= limit {
      assert kept[0] == h.log[|h.log| - |kept|];
      assert now - WINDOW_SECONDS < kept[0] <= now;
    }
  }

  /** The time until the oldest of the last `limit` admissions leaves the window. */
  function Wait(limit: nat, h: History, now: real): real
    requires 1 <= limit <= |h.log|
  {
    h.log[|h.log| - limit] + WINDOW_SECONDS - now
  }

  /** A refused identity is admitted again, if nothing else is admitted to it meanwhile, as
      soon as that time has passed and not before. The refusal announces its whole seconds,
      at least one. */
  lemma {:induction false} AdmittedAgainIff(limit: nat, requests: seq<real>, now: real, later: real)
    requires limit >= 1 && Sorted(requests + [now]) && now <= later
    requires Decide(Replay(limit, requests).window, limit, now).1.Refused?
    ensures
      var h := Replay(limit, requests + [now]);
      && limit <= |h.log| && 0.0 < Wait(limit, h, now) <= WINDOW_SECONDS
      && (Decide(h.window, limit, later).1.Admitted? <==> later >= now + Wait(limit, h, now))
      && Decide(Replay(limit, requests).window, limit, now).1.retryAfter
         == if Wait(limit, h, now).Floor < 1 then 1 else Wait(limit, h, now).Floor
  {
    RefusalShape(limit, requests, now);
    DecideLater(Evict(Replay(limit, requests).window, now), limit, later);
  }

  lemma {:induction false} RefusalShape(limit: nat, requests: seq<real>, now: real)
    requires limit >= 1 && Sorted(requests + [now])
    requires Decide(Replay(limit, requests).window, limit, now).1.Refused?
    ensures
      var h := Replay(limit, requests);
      var kept := Evict(h.window, now);
      && Replay(limit, requests + [now]) == History(h.log, kept)
      && |kept| == limit <= |h.log| && kept[0] == h.log[|h.log| - limit]
      && now - WINDOW_SECONDS < kept[0] <= now
  {
    assert Front(requests + [now]) == requests && Last(requests + [now]) == now;
    SortedFront(requests, now);
    ReplayTracked(limit, requests);
    if requests != [] {
      assert (requests + [now])[|requests| - 1] <= (requests + [now])[|requests|];
      EvictedDequeIsWindow(Replay(limit, requests), limit, Last(requests), now);
    }
  }

  /** A full deque admits again once its oldest entry is evicted. */
  lemma DecideLater(kept: seq<real>, limit: nat, later: real)
    requires |kept| == limit >= 1
    ensures Decide(kept, limit, later).1.Admitted? <==> later >= kept[0] + WINDOW_SECONDS
  {
    if kept[0] <= later - WINDOW_SECONDS {
      EvictShrinks(kept[1..], later);
    }
  }

  lemma SortedFront(requests: seq<real>, now: real)
    requires Sorted(requests + [now])
    ensures Sorted(requests)
  {
    forall i, j | 0 <= i <= j < |requests|
      ensures requests[i] <= requests[j]
    {
      assert (requests + [now])[i] <= (requests + [now])[j];
    }
  }

  /** Waiting exactly as long as asked is enough if and only if less than a second was left
      or the time left was a whole number of seconds: the announced time is cut off. One
      second longer is always enough. */
  lemma {:induction false} RetryAfterSufficesIff(limit: nat, requests: seq<real>, now: real, later: real)
    requires limit >= 1 && Sorted(requests + [now])
    requires Decide(Replay(limit, requests).window, limit, now).1.Refused?
    ensures
      var asked := Decide(Replay(limit, requests).window, limit, now).1.retryAfter as real;
      var h := Replay(limit, requests + [now]);
      && limit <= |h.log|
      && var wait := Wait(limit, h, now);
      && (Decide(h.window, limit, now + asked).1.Admitted? <==> wait <= 1.0 || wait == wait.Floor as real)
      && (later >= now + asked + 1.0 ==> Decide(h.window, limit, later).1.Admitted?)
  {
    var asked := Decide(Replay(limit, requests).window, limit, now).1.retryAfter as real;
    AdmittedAgainIff(limit, requests, now, now);
    AdmittedAgainIff(limit, requests, now, now + asked);
    if later >= now + asked + 1.0 {
      AdmittedAgainIff(limit, requests, now, later);
    }
  }

  lemma {:induction false} EvictShrinks(window: seq<real>, now: real)
    ensures |Evict(window, now)| <= |window|
  {
    if window != [] && window[0] <= now - WINDOW_SECONDS {
      EvictShrinks(window[1..], now);
    }
  }

  // ---- several identities ----

  datatype ApiRequest = ApiRequest(identity: Identity, now: real)

  function HistoryOf(served: map<Identity, History>, identity: Identity): History {
    if identity in served then served[identity] else History([], [])
  }

  /** All identities' histories after these requests, in the order the lock admits them. */
  function Served(limit: nat, requests: seq<ApiRequest>): map<Identity, History>
    requires limit >= 1
  {
    if requests == [] then map[]
    else
      var before := Served(limit, Front(requests));
      var request := Last(requests);
      before[request.identity := Next(limit, HistoryOf(before, request.identity), request.now)]
  }

  function TimesOf(requests: seq<ApiRequest>, identity: Identity): seq<real> {
    if requests == [] then []
    else TimesOf(Front(requests), identity) + if Last(requests).identity == identity then [Last(requests).now] else []
  }

  /** Identities do not interfere: each is served as if it were alone. */
  lemma {:induction false} ServedAlone(limit: nat, requests: seq<ApiRequest>, identity: Identity)
    requires limit >= 1
    ensures HistoryOf(Served(limit, requests), identity) == Replay(limit, TimesOf(requests, identity))
  {
    if requests != [] {
      ServedAlone(limit, Front(requests), identity);
      var times := TimesOf(Front(requests), identity);
      if Last(requests).identity == identity {
        assert Front(TimesOf(requests, identity)) == times && Last(TimesOf(requests, identity)) == Last(requests).now;
      } else {
        assert TimesOf(requests, identity) == times;
      }
    }
  }

  ghost predicate ClockForward(requests: seq<ApiRequest>) {
    forall i, j | 0 <= i <= j < |requests| :: requests[i].now <= requests[j].now
  }

  lemma {:induction false} TimesSorted(requests: seq<ApiRequest>, identity: Identity)
    requires ClockForward(requests)
    ensures Sorted(TimesOf(requests, identity))
    ensures forall i | 0 <= i < |TimesOf(requests, identity)| :: TimesOf(requests, identity)[i] <= Last(requests).now
  {
    if requests != [] {
      TimesSorted(Front(requests), identity);
      if |requests| > 1 {
        assert requests[|requests| - 2].now <= requests[|requests| - 1].now;
      }
    }
  }

  /** The limit holds for every identity among any number of them. */
  lemma {:induction false} EveryWindowBound(limit: nat, requests: seq<ApiRequest>, identity: Identity, t: real)
    requires limit >= 1 && ClockForward(requests)
    ensures |Within(HistoryOf(Served(limit, requests), identity).log, t)| <= limit
  {
    ServedAlone(limit, requests, identity);
    TimesSorted(requests, identity);
    WindowBound(limit, TimesOf(requests, identity), t);
  }

  function Verdicts(limit: nat, requests: seq<ApiRequest>): seq<Verdict>
    requires limit >= 1
  {
    if requests == [] then []
    else
      var h := HistoryOf(Served(limit, Front(requests)), Last(requests).identity);
      Verdicts(limit, Front(requests)) + [Decide(h.window, limit, Last(requests).now).1]
  }

  ghost predicate Agree(windows: map<Identity, seq<real>>, served: map<Identity, History>) {
    forall identity | identity in windows || identity in served ::
      (if identity in windows then windows[identity] else []) == HistoryOf(served, identity).window
  }

  /** The limiter answers a whole sequence of requests as the histories say. */
  method Serve(limiter: Limiter, requests: seq<ApiRequest>) returns (verdicts: seq<Verdict>)
    requires limiter.limit >= 1 && limiter.windows == map[]
    modifies limiter`windows
    ensures verdicts == Verdicts(limiter.limit, requests)
    ensures Agree(limiter.windows, Served(limiter.limit, requests))
  {
    verdicts := [];
    for i := 0 to |requests|
      invariant verdicts == Verdicts(limiter.limit, requests[..i])
      invariant Agree(limiter.windows, Served(limiter.limit, requests[..i]))
    {
      assert Front(requests[..i + 1]) == requests[..i] && Last(requests[..i + 1]) == requests[i];
      ghost var served := Served(limiter.limit, requests[..i]);
      assert limiter.Window(requests[i].identity) == HistoryOf(served, requests[i].identity).window;
      var verdict := limiter.RateLimit(requests[i].identity, requests[i].now);
      verdicts := verdicts + [verdict];
    }
    assert requests[..|requests|] == requests;
  }
}
