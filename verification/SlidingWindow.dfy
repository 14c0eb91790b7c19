/**
  The Redis sliding-window log.  A key is the sorted list of the scores of its
  members, which are unique, together with the key's expiry time.  Times are in
  milliseconds; `redisNow` is the server's clock, `now` the one the caller passes.
 */
module SlidingWindow {
  import opened Wrappers
  import opened Shared

  datatype Key = Key(log: seq<int>, expireAt: Option<int>)

  datatype Reply = Reply(allowed: bool, currentCount: nat, retryAfterMs: int)

  const TTL_SLACK_MS := 2000

  predicate Sorted(log: seq<int>) {
    forall i, j :: 0 <= i < j < |log| ==> log[i] <= log[j]
  }

  function Front(s: seq<int>): seq<int>
    requires s != []
  {
    s[..|s| - 1]
  }

  function Last(s: seq<int>): int
    requires s != []
  {
    s[|s| - 1]
  }

  lemma SplitLast(s: seq<int>)
    requires s != []
    ensures s == Front(s) + [Last(s)] && Last(s) in s
    ensures forall x :: x in s <==> x in Front(s) || x == Last(s)
  {}

  /** ZREMRANGEBYSCORE -inf bound: what stays has a greater score. */
  function Above(log: seq<int>, bound: int): (kept: seq<int>)
    ensures forall x :: x in kept <==> x in log && x > bound
  {
    if log == [] then []
    else
      SplitLast(log);
      if Last(log) > bound then Above(Front(log), bound) + [Last(log)]
      else Above(Front(log), bound)
  }

  /** ZADD of a new member: scores stay sorted. */
  function Insert(log: seq<int>, x: int): seq<int> {
    if log == [] || Last(log) <= x then log + [x]
    else Insert(Front(log), x) + [Last(log)]
  }

  function Max0(x: int): int { if x < 0 then 0 else x }

  /** The script on the log alone. */
  function Script(log: seq<int>, now: int, windowMs: int, maxRequests: int): (seq<int>, Reply) {
    var kept := Above(log, now - windowMs);
    if |kept| >= maxRequests then
      var retry := if kept == [] then windowMs else Max0(windowMs - (now - kept[0]));
      (kept, Reply(false, |kept|, retry))
    else (Insert(kept, now), Reply(true, |kept| + 1, 0))
  }

  predicate Admits(log: seq<int>, now: int, windowMs: int, maxRequests: int) {
    Script(log, now, windowMs, maxRequests).1.allowed
  }

  // ---- the key in Redis

  /** A key whose time has come is gone before the script runs. */
  function Visible(key: Key, redisNow: int): seq<int> {
    if key.expireAt.Some? && redisNow >= key.expireAt.value then [] else key.log
  }

  /** An admission sets the key's expiry; a set that becomes empty takes its expiry with it. */
  function Eval(key: Key, now: int, redisNow: int, windowMs: int, maxRequests: int): (Key, Reply) {
    var log := Visible(key, redisNow);
    var (after, reply) := Script(log, now, windowMs, maxRequests);
    if reply.allowed then (Key(after, Some(redisNow + windowMs + TTL_SLACK_MS)), reply)
    else if after == [] then (Key([], None), reply)
    else (Key(after, key.expireAt), reply)
  }

  datatype CheckResult = CheckResult(allowed: bool, currentCount: nat, remaining: int, retryAfterSeconds: int)

  class RedisKey {
    var key: Key

    constructor ()
      ensures key == Key([], None)
    {
      key := Key([], None);
    }

    /** One evaluation of the script, which Redis runs atomically, and the result made of its reply. */
    method CheckSlidingWindow(now: int, redisNow: int, windowMs: int, maxRequests: int) returns (result: CheckResult)
      modifies this
      ensures var (after, reply) := Eval(old(key), now, redisNow, windowMs, maxRequests);
              && key == after
              && result.allowed == reply.allowed && result.currentCount == reply.currentCount
              && result.remaining == (if reply.allowed then maxRequests - reply.currentCount else 0)
              && (result.allowed ==> key.expireAt == Some(redisNow + windowMs + 2000))
              && (!result.allowed && key.log == [] ==> key.expireAt == None)
              && (result.allowed ==> result.retryAfterSeconds == 0)
              && (!result.allowed ==>
                    && result.retryAfterSeconds >= 1
                    && reply.retryAfterMs <= 1000 * result.retryAfterSeconds
                    && (result.retryAfterSeconds > 1 ==> 1000 * (result.retryAfterSeconds - 1) < reply.retryAfterMs))
    {
      var log := Visible(key, redisNow);
      var kept := Above(log, now - windowMs);
      if |kept| >= maxRequests {
        var retry := windowMs;
        if kept != [] {
          retry := windowMs - (now - kept[0]);
          if retry < 0 {
            retry := 0;
          }
        }
        key := Key(kept, if kept == [] then None else key.expireAt);
        var seconds := CeilSeconds(retry);
        return CheckResult(false, |kept|, 0, if seconds < 1 then 1 else seconds);
      }
      key := Key(Insert(kept, now), Some(redisNow + windowMs + TTL_SLACK_MS));
      var left := maxRequests - (|kept| + 1);
      return CheckResult(true, |kept| + 1, if left < 0 then 0 else left, 0);
    }
  }

  // ---- runs of requests

  /** The times at which a run of requests is admitted, oldest first. */
  function Admissions(log: seq<int>, times: seq<int>, windowMs: int, maxRequests: int): seq<int>
    decreases |times|
  {
    if times == [] then []
    else
      var (after, reply) := Script(log, times[0], windowMs, maxRequests);
      (if reply.allowed then [times[0]] else []) + Admissions(after, times[1..], windowMs, maxRequests)
  }

  /** The entries of `times` in the interval (from, to]. */
  function Within(times: seq<int>, from: int, to: int): seq<int> {
    if times == [] then []
    else
      var x := Last(times);
      Within(Front(times), from, to) + if from < x <= to then [x] else []
  }

  lemma {:induction false} WithinIsAbove(times: seq<int>, from: int, to: int)
    requires forall x <- times :: x <= to
    ensures Within(times, from, to) == Above(times, from)
  {
    if times != [] {
      SplitLast(times);
      WithinIsAbove(Front(times), from, to);
    }
  }

  lemma {:induction false} NarrowerWindow(times: seq<int>, from: int, to: int, from': int, to': int)
    requires from <= from' && to' <= to
    ensures |Within(times, from', to')| <= |Within(times, from, to)|
  {
    if times != [] {
      NarrowerWindow(Front(times), from, to, from', to');
    }
  }

  lemma {:induction false} AboveSorted(log: seq<int>, bound: int)
    requires Sorted(log)
    ensures Sorted(Above(log, bound))
  {
    if log != [] {
      var front := Front(log);
      AboveSorted(front, bound);
      assert forall y <- front :: y <= Last(log);
      SortedAppend(Above(front, bound), Last(log));
    }
  }

  lemma {:induction false} AboveAbove(log: seq<int>, a: int, b: int)
    requires a <= b
    ensures Above(Above(log, a), b) == Above(log, b)
  {
    if log != [] {
      var front, x := Front(log), Last(log);
      AboveAbove(front, a, b);
      if x > a {
        assert Above(log, a)[..|Above(front, a)|] == Above(front, a);
      }
    }
  }

  /** Every window (t - windowMs, t] holds at most maxRequests admissions. */
  ghost predicate WindowsBounded(admitted: seq<int>, windowMs: int, maxRequests: int) {
    forall t :: |Window(admitted, windowMs, t)| <= maxRequests
  }

  function Window(times: seq<int>, windowMs: int, t: int): seq<int> {
    Within(times, t - windowMs, t)
  }

  /** The log is the recent part of all admissions. */
  ghost predicate LogSound(log: seq<int>, admitted: seq<int>, last: int, windowMs: int) {
    && log == Above(admitted, last - windowMs)
    && (forall x <- admitted :: x <= last)
    && Sorted(admitted)
  }

  lemma InsertAtEnd(log: seq<int>, x: int)
    requires forall y <- log :: y <= x
    ensures Insert(log, x) == log + [x]
  {
    if log != [] {
      SplitLast(log);
    }
  }

  lemma AboveAppend(log: seq<int>, x: int, bound: int)
    requires x > bound
    ensures Above(log + [x], bound) == Above(log, bound) + [x]
  {
    assert (log + [x])[..|log|] == log;
  }

  lemma SortedAppend(log: seq<int>, x: int)
    requires Sorted(log) && forall y <- log :: y <= x
    ensures Sorted(log + [x])
  {
    assert forall i :: 0 <= i < |log| ==> log[i] in log;
  }

  lemma StepIsSound(log: seq<int>, admitted: seq<int>, last: int, now: int, windowMs: int, maxRequests: int)
    requires windowMs > 0 && last <= now && LogSound(log, admitted, last, windowMs)
    ensures var (after, reply) := Script(log, now, windowMs, maxRequests);
            LogSound(after, if reply.allowed then admitted + [now] else admitted, now, windowMs)
  {
    hide Above, Insert, Sorted;
    AboveAbove(admitted, last - windowMs, now - windowMs);
    InsertAtEnd(Above(log, now - windowMs), now);
    AboveAppend(admitted, now, now - windowMs);
    SortedAppend(admitted, now);
  }

  lemma AdmissionKeepsWindows(log: seq<int>, admitted: seq<int>, last: int, now: int, windowMs: int, maxRequests: int)
    requires windowMs > 0 && last <= now && LogSound(log, admitted, last, windowMs)
    requires WindowsBounded(admitted, windowMs, maxRequests) && Admits(log, now, windowMs, maxRequests)
    ensures WindowsBounded(admitted + [now], windowMs, maxRequests)
  {
    hide Above, Insert, Sorted;
    var all := admitted + [now];
    assert all[..|admitted|] == admitted;
    AboveAbove(admitted, last - windowMs, now - windowMs);
    forall t ensures |Window(all, windowMs, t)| <= maxRequests {
      assert |Window(admitted, windowMs, t)| <= maxRequests;
      if now <= t && t - windowMs < now {
        WithinIsAbove(admitted, now - windowMs, t);
        NarrowerWindow(admitted, now - windowMs, t, t - windowMs, t);
      }
    }
  }

  lemma {:induction false} RunKeepsWindows(
      log: seq<int>, admitted: seq<int>, last: int, times: seq<int>, windowMs: int, maxRequests: int)
    requires windowMs > 0 && Ascending(times, last)
    requires LogSound(log, admitted, last, windowMs) && WindowsBounded(admitted, windowMs, maxRequests)
    ensures WindowsBounded(admitted + Admissions(log, times, windowMs, maxRequests), windowMs, maxRequests)
    decreases |times|
  {
    hide Script, LogSound, WindowsBounded;
    if times == [] {
      assert admitted + [] == admitted;
    } else {
      var now := times[0];
      var (after, reply) := Script(log, now, windowMs, maxRequests);
      StepIsSound(log, admitted, last, now, windowMs, maxRequests);
      var rest := Admissions(after, times[1..], windowMs, maxRequests);
      if reply.allowed {
        AdmissionKeepsWindows(log, admitted, last, now, windowMs, maxRequests);
        RunKeepsWindows(after, admitted + [now], now, times[1..], windowMs, maxRequests);
        assert admitted + [now] + rest == admitted + ([now] + rest);
      } else {
        RunKeepsWindows(after, admitted, now, times[1..], windowMs, maxRequests);
        assert [] + rest == rest;
      }
    }
  }

  /** Main result: over any run on a non-decreasing clock no window holds more than the limit. */
  lemma NoWindowExceedsTheLimit(times: seq<int>, start: int, windowMs: int, maxRequests: nat, t: int)
    requires windowMs > 0 && Ascending(times, start)
    ensures |Within(Admissions([], times, windowMs, maxRequests), t - windowMs, t)| <= maxRequests
  {
    var admitted := Admissions([], times, windowMs, maxRequests);
    RunKeepsWindows([], [], start, times, windowMs, maxRequests);
    assert [] + admitted == admitted;
    assert |Window(admitted, windowMs, t)| <= maxRequests;
  }

  /** The log after a run of requests. */
  function LogAfter(log: seq<int>, times: seq<int>, windowMs: int, maxRequests: int): seq<int>
    decreases |times|
  {
    if times == [] then log
    else LogAfter(Script(log, times[0], windowMs, maxRequests).0, times[1..], windowMs, maxRequests)
  }

  lemma {:induction false} RunIsSound(
      log: seq<int>, admitted: seq<int>, last: int, times: seq<int>, windowMs: int, maxRequests: int)
    requires windowMs > 0 && Ascending(times, last) && LogSound(log, admitted, last, windowMs)
    ensures LogSound(LogAfter(log, times, windowMs, maxRequests),
                     admitted + Admissions(log, times, windowMs, maxRequests),
                     if times == [] then last else times[|times| - 1], windowMs)
    decreases |times|
  {
    hide Script, LogSound;
    if times == [] {
      assert admitted + [] == admitted;
    } else {
      var now := times[0];
      var (after, reply) := Script(log, now, windowMs, maxRequests);
      StepIsSound(log, admitted, last, now, windowMs, maxRequests);
      var rest := Admissions(after, times[1..], windowMs, maxRequests);
      var sofar := if reply.allowed then admitted + [now] else admitted;
      RunIsSound(after, sofar, now, times[1..], windowMs, maxRequests);
      assert sofar + rest == admitted + ((if reply.allowed then [now] else []) + rest);
    }
  }

  lemma {:induction false} LastComesAfter(times: seq<int>, start: int)
    requires Ascending(times, start)
    ensures times != [] ==> start <= times[|times| - 1]
    decreases |times|
  {
    if times != [] {
      LastComesAfter(times[1..], times[0]);
    }
  }

  /**
    After any run, the next request is admitted exactly if fewer than maxRequests
    admissions lie in the window that ends with it, and the reply counts them and it.
   */
  lemma DecisionsAreExact(times: seq<int>, start: int, now: int, windowMs: int, maxRequests: int)
    requires windowMs > 0 && Ascending(times, start) && start <= now && (times != [] ==> times[|times| - 1] <= now)
    ensures var inWindow := |Within(Admissions([], times, windowMs, maxRequests), now - windowMs, now)|;
            var reply := Script(LogAfter([], times, windowMs, maxRequests), now, windowMs, maxRequests).1;
            && (reply.allowed <==> inWindow < maxRequests)
            && reply.currentCount == inWindow + if reply.allowed then 1 else 0
  {
    hide Above, Insert, Sorted;
    var log, admitted := LogAfter([], times, windowMs, maxRequests), Admissions([], times, windowMs, maxRequests);
    var last := if times == [] then start else times[|times| - 1];
    NothingIsSound(start, windowMs);
    RunIsSound([], [], start, times, windowMs, maxRequests);
    assert [] + admitted == admitted;
    AboveAbove(admitted, last - windowMs, now - windowMs);
    WithinIsAbove(admitted, now - windowMs, now);
  }

  lemma NothingIsSound(last: int, windowMs: int)
    ensures LogSound([], [], last, windowMs)
  {}

  // ---- the retry hint

  lemma {:induction false} AboveOldest(kept: seq<int>, bound: int)
    requires Sorted(kept) && kept != []
    ensures |Above(kept, bound)| <= |kept|
    ensures |Above(kept, bound)| < |kept| <==> kept[0] <= bound
  {
    var front := Front(kept);
    if front != [] {
      assert front[0] == kept[0];
      AboveOldest(front, bound);
    } else {
      assert Above(front, bound) == [];
    }
  }

  lemma LastIsGreatest(log: seq<int>)
    requires Sorted(log) && log != []
    ensures Sorted(Front(log)) && forall y <- log :: y <= Last(log)
  {}

  lemma {:induction false} InsertSorts(log: seq<int>, x: int)
    requires Sorted(log)
    ensures Sorted(Insert(log, x)) && |Insert(log, x)| == |log| + 1
    ensures forall y :: y in Insert(log, x) <==> y in log || y == x
  {
    hide Sorted;
    if log == [] {
      SortedAppend(log, x);
    } else {
      LastIsGreatest(log);
      SplitLast(log);
      if Last(log) <= x {
        SortedAppend(log, x);
      } else {
        InsertSorts(Front(log), x);
        SortedAppend(Insert(Front(log), x), Last(log));
      }
    }
  }

  /** A script never leaves more than the limit in the log. */
  lemma LogStaysWithinLimit(log: seq<int>, now: int, windowMs: int, maxRequests: nat)
    requires Sorted(log) && |log| <= maxRequests
    ensures var after := Script(log, now, windowMs, maxRequests).0;
            Sorted(after) && |after| <= maxRequests
  {
    hide Sorted, Insert, Above;
    AboveIsShorter(log, now - windowMs);
    AboveSorted(log, now - windowMs);
    InsertSorts(Above(log, now - windowMs), now);
  }

  lemma {:induction false} AboveIsShorter(log: seq<int>, bound: int)
    ensures |Above(log, bound)| <= |log|
  {
    if log != [] {
      AboveIsShorter(Front(log), bound);
    }
  }

  /**
    After a denial, with nothing else admitted, a request `wait` ms later is admitted
    exactly when the limit is positive and `wait` is at least the hint.
   */
  lemma RetryHintIsExact(log: seq<int>, now: int, windowMs: int, maxRequests: nat, wait: nat)
    requires windowMs > 0 && Sorted(log) && |log| <= maxRequests && !Admits(log, now, windowMs, maxRequests)
    ensures var (after, reply) := Script(log, now, windowMs, maxRequests);
            Admits(after, now + wait, windowMs, maxRequests) <==> maxRequests > 0 && wait >= reply.retryAfterMs
  {
    hide Sorted, Insert, Above;
    AboveIsShorter(log, now - windowMs);
    AboveSorted(log, now - windowMs);
    var kept := Above(log, now - windowMs);
    if kept != [] {
      assert kept[0] in kept;
      AboveOldest(kept, now + wait - windowMs);
    } else {
      NothingAbove(kept, now + wait - windowMs);
    }
  }

  // ---- the key's expiry

  datatype Request = Request(now: int, redisNow: int)

  /** Clocks run forward, and the server's leads the callers' by between `lead` and `lead + 2000` ms. */
  predicate ClocksAgree(requests: seq<Request>, last: int, lead: int) {
    requests == [] ||
    (&& last <= requests[0].now
     && lead <= requests[0].redisNow - requests[0].now <= lead + TTL_SLACK_MS
     && ClocksAgree(requests[1..], requests[0].now, lead))
  }

  function Replies(key: Key, requests: seq<Request>, windowMs: int, maxRequests: int): seq<Reply>
    decreases |requests|
  {
    if requests == [] then []
    else
      var (after, reply) := Eval(key, requests[0].now, requests[0].redisNow, windowMs, maxRequests);
      [reply] + Replies(after, requests[1..], windowMs, maxRequests)
  }

  function RepliesWithoutExpiry(log: seq<int>, requests: seq<Request>, windowMs: int, maxRequests: int): seq<Reply>
    decreases |requests|
  {
    if requests == [] then []
    else
      var (after, reply) := Script(log, requests[0].now, windowMs, maxRequests);
      [reply] + RepliesWithoutExpiry(after, requests[1..], windowMs, maxRequests)
  }

  /** The key expires only when the caller's clock is a window past every entry. */
  ghost predicate ExpirySound(key: Key, lead: int, windowMs: int) {
    && Sorted(key.log)
    && (key.expireAt.None? ==> key.log == [])
    && (key.expireAt.Some? ==>
          forall x <- key.log :: x + lead + windowMs + TTL_SLACK_MS <= key.expireAt.value)
  }

  lemma {:induction false} NothingAbove(log: seq<int>, bound: int)
    requires forall x <- log :: x <= bound
    ensures Above(log, bound) == []
  {
    if log != [] {
      SplitLast(log);
      NothingAbove(Front(log), bound);
    }
  }

  lemma ExpiryChangesNothing(key: Key, r: Request, lead: int, windowMs: int, maxRequests: int)
    requires ExpirySound(key, lead, windowMs) && r.redisNow - r.now <= lead + TTL_SLACK_MS
    ensures Above(Visible(key, r.redisNow), r.now - windowMs) == Above(key.log, r.now - windowMs)
  {
    if key.expireAt.Some? && r.redisNow >= key.expireAt.value {
      NothingAbove(key.log, r.now - windowMs);
    }
  }

  /** PEXPIRE never changes a decision, even with clocks up to two seconds apart. */
  lemma {:induction false} ExpiryNeverChangesADecision(
      key: Key, requests: seq<Request>, last: int, lead: int, windowMs: int, maxRequests: int)
    requires ExpirySound(key, lead, windowMs) && (forall x <- key.log :: x <= last)
    requires ClocksAgree(requests, last, lead)
    ensures Replies(key, requests, windowMs, maxRequests)
         == RepliesWithoutExpiry(key.log, requests, windowMs, maxRequests)
    decreases |requests|
  {
    if requests != [] {
      hide Insert, Above;
      var r := requests[0];
      ExpiryChangesNothing(key, r, lead, windowMs, maxRequests);
      var kept := Above(key.log, r.now - windowMs);
      AboveSorted(key.log, r.now - windowMs);
      InsertSorts(kept, r.now);
      var after := Eval(key, r.now, r.redisNow, windowMs, maxRequests).0;
      assert after.log == Script(key.log, r.now, windowMs, maxRequests).0;
      ExpiryNeverChangesADecision(after, requests[1..], r.now, lead, windowMs, maxRequests);
    }
  }

  function Nows(requests: seq<Request>): seq<int> {
    if requests == [] then [] else [requests[0].now] + Nows(requests[1..])
  }

  /** The times of the allowed requests. */
  function Allowed(requests: seq<Request>, replies: seq<Reply>): seq<int>
    requires |requests| == |replies|
  {
    if requests == [] then []
    else (if replies[0].allowed then [requests[0].now] else []) + Allowed(requests[1..], replies[1..])
  }

  lemma {:induction false} AllowedAreAdmissions(
      log: seq<int>, requests: seq<Request>, last: int, lead: int, windowMs: int, maxRequests: int)
    requires ClocksAgree(requests, last, lead)
    ensures var replies := RepliesWithoutExpiry(log, requests, windowMs, maxRequests);
            && |replies| == |requests|
            && Allowed(requests, replies) == Admissions(log, Nows(requests), windowMs, maxRequests)
            && Ascending(Nows(requests), last)
    decreases |requests|
  {
    hide Script;
    if requests != [] {
      var (after, reply) := Script(log, requests[0].now, windowMs, maxRequests);
      AllowedAreAdmissions(after, requests[1..], requests[0].now, lead, windowMs, maxRequests);
      var rest := RepliesWithoutExpiry(after, requests[1..], windowMs, maxRequests);
      assert ([reply] + rest)[1..] == rest;
      assert Nows(requests)[1..] == Nows(requests[1..]);
    }
  }

  /** The limit, for the key as Redis keeps it: expiring, on a server clock of its own. */
  lemma RedisNeverExceedsTheLimit(requests: seq<Request>, start: int, lead: int, windowMs: int, maxRequests: nat, t: int)
    requires windowMs > 0 && ClocksAgree(requests, start, lead)
    ensures var replies := Replies(Key([], None), requests, windowMs, maxRequests);
            |replies| == |requests| && |Within(Allowed(requests, replies), t - windowMs, t)| <= maxRequests
  {
    ExpiryNeverChangesADecision(Key([], None), requests, start, lead, windowMs, maxRequests);
    AllowedAreAdmissions([], requests, start, lead, windowMs, maxRequests);
    NoWindowExceedsTheLimit(Nows(requests), start, windowMs, maxRequests, t);
  }
}
