/** The sliding-window limiter (agent_safety_kit/guard/ratelimit.ts) and what holds over whole runs of it. */
module RateLimit {
  import opened Common

  const WINDOW := 60000

  datatype Verdict = Verdict(allowed: bool, remaining: int, retryAfterMs: int)

  type Histories = map<string, seq<int>>

  function Max(a: int, b: int): int { if a >= b then a else b }

  /** The history without the leading entries older than the window. */
  function Prune(history: seq<int>, start: int): seq<int> {
    if history != [] && history[0] < start then Prune(history[1..], start) else history
  }

  /** What remains is the tail that begins with the first entry inside the window. */
  lemma {:induction false} PruneIsTail(history: seq<int>, start: int) returns (k: nat)
    ensures k <= |history| && Prune(history, start) == history[k..]
    ensures forall i :: 0 <= i < k ==> history[i] < start
    ensures k < |history| ==> history[k] >= start
  {
    if history != [] && history[0] < start {
      var j := PruneIsTail(history[1..], start);
      k := j + 1;
    } else {
      k := 0;
    }
  }

  function HistoryOf(requests: Histories, key: string): seq<int> {
    if key in requests then requests[key] else []
  }

  function Judge(pruned: seq<int>, limit: int, now: int): Verdict {
    if |pruned| >= limit then Verdict(false, 0, Max(0, (if pruned != [] then pruned[0] else now) + WINDOW - now))
    else Verdict(true, Max(0, limit - |pruned| - 1), 0)
  }

  function VerdictAt(requests: Histories, key: string, limit: int, now: int): Verdict {
    Judge(Prune(HistoryOf(requests, key), now - WINDOW), limit, now)
  }

  function AfterCheck(requests: Histories, key: string, limit: int, now: int): Histories {
    var pruned := Prune(HistoryOf(requests, key), now - WINDOW);
    requests[key := if |pruned| >= limit then pruned else pruned + [now]]
  }

  class SlidingWindowRateLimiter {
    var requests: Histories

    constructor ()
      ensures requests == map[]
    {
      requests := map[];
    }

    method Check(key: string, limitPerMinute: int, nowMs: int) returns (result: Verdict)
      modifies this
      ensures result == VerdictAt(old(requests), key, limitPerMinute, nowMs)
      ensures requests == AfterCheck(old(requests), key, limitPerMinute, nowMs)
    {
      var windowStart := nowMs - WINDOW;
      var history := if key in requests then requests[key] else [];
      while |history| > 0 && history[0] < windowStart
        invariant Prune(history, windowStart) == Prune(HistoryOf(old(requests), key), windowStart)
      {
        history := history[1..];
      }
      if |history| >= limitPerMinute {
        var oldest := if |history| > 0 then history[0] else nowMs;
        requests := requests[key := history];
        return Verdict(false, 0, Max(0, oldest + WINDOW - nowMs));
      }
      history := history + [nowMs];
      requests := requests[key := history];
      result := Verdict(true, Max(0, limitPerMinute - |history|), 0);
    }

    method Reset()
      modifies this
      ensures requests == map[]
    {
      requests := map[];
    }
  }

  // ------------------------------------------------------------------ runs

  datatype Request = Request(key: string, now: int)

  /** The histories after a run in which every key has a constant limit. */
  function Serve(limit: string -> int, run: seq<Request>): Histories {
    if run == [] then map[]
    else
      var last := run[|run| - 1];
      AfterCheck(Serve(limit, run[..|run| - 1]), last.key, limit(last.key), last.now)
  }

  /** The verdict that a request gets after a run. */
  function Answer(limit: string -> int, run: seq<Request>, r: Request): Verdict {
    VerdictAt(Serve(limit, run), r.key, limit(r.key), r.now)
  }

  /** The full log of the times at which requests of a key were admitted. */
  function Admitted(limit: string -> int, run: seq<Request>, key: string): seq<int> {
    if run == [] then []
    else
      var init, last := run[..|run| - 1], run[|run| - 1];
      Admitted(limit, init, key) + (if last.key == key && Answer(limit, init, last).allowed then [last.now] else [])
  }

  lemma ServeNext(limit: string -> int, run: seq<Request>, r: Request)
    ensures Serve(limit, run + [r]) == AfterCheck(Serve(limit, run), r.key, limit(r.key), r.now)
  {
    assert (run + [r])[..|run|] == run;
  }

  lemma AdmittedNext(limit: string -> int, run: seq<Request>, r: Request, key: string)
    ensures Admitted(limit, run + [r], key)
            == Admitted(limit, run, key) + (if r.key == key && Answer(limit, run, r).allowed then [r.now] else [])
  {
    assert (run + [r])[..|run|] == run;
  }

  /** The clock never goes back. */
  ghost predicate Timely(run: seq<Request>) {
    forall i, j :: 0 <= i <= j < |run| ==> run[i].now <= run[j].now
  }

  ghost predicate NotAfter(run: seq<Request>, now: int) {
    forall i :: 0 <= i < |run| ==> run[i].now <= now
  }

  /** The entries of a log in the closed interval from a to b. */
  function Between(log: seq<int>, a: int, b: int): seq<int> {
    if log == [] then []
    else Between(log[..|log| - 1], a, b) + (if a <= log[|log| - 1] <= b then [log[|log| - 1]] else [])
  }

  ghost predicate Ascending(s: seq<int>) {
    forall i, j :: 0 <= i <= j < |s| ==> s[i] <= s[j]
  }

  lemma BetweenSnoc(log: seq<int>, x: int, a: int, b: int)
    ensures Between(log + [x], a, b) == Between(log, a, b) + (if a <= x <= b then [x] else [])
  {
    assert (log + [x])[..|log|] == log;
  }

  lemma {:induction false} BetweenNone(log: seq<int>, a: int, b: int)
    requires forall i :: 0 <= i < |log| ==> log[i] < a
    ensures Between(log, a, b) == []
  {
    if log != [] {
      BetweenNone(log[..|log| - 1], a, b);
    }
  }

  /** In an ascending log, an interval that ends at or after the last entry is a tail. */
  lemma {:induction false} BetweenTail(log: seq<int>, k: nat, a: int, b: int)
    requires k <= |log|
    requires forall i :: 0 <= i < k ==> log[i] < a
    requires forall i :: k <= i < |log| ==> a <= log[i] <= b
    ensures Between(log, a, b) == log[k..]
  {
    if k == |log| {
      BetweenNone(log, a, b);
    } else {
      var init := log[..|log| - 1];
      BetweenTail(init, k, a, b);
      assert log[k..] == init[k..] + [log[|log| - 1]];
    }
  }

  /** Narrowing the interval loses entries only. */
  lemma {:induction false} BetweenNarrower(log: seq<int>, a: int, b: int, c: int, d: int)
    requires a <= c && d <= b
    ensures |Between(log, c, d)| <= |Between(log, a, b)|
  {
    if log != [] {
      BetweenNarrower(log[..|log| - 1], a, b, c, d);
    }
  }

  // ------------------------------------------------------------------ the queue is the window of the log

  lemma AscendingSnoc(log: seq<int>, x: int)
    requires Ascending(log) && NotLater(log, x)
    ensures Ascending(log + [x])
  {
  }

  ghost predicate NotLater(log: seq<int>, now: int) {
    forall i :: 0 <= i < |log| ==> log[i] <= now
  }

  lemma {:induction false} LogIsAscending(limit: string -> int, run: seq<Request>, key: string, now: int)
    requires Timely(run) && NotAfter(run, now)
    ensures Ascending(Admitted(limit, run, key)) && NotLater(Admitted(limit, run, key), now)
  {
    if run != [] {
      var init, last := run[..|run| - 1], run[|run| - 1];
      LogIsAscending(limit, init, key, last.now);
      assert run == init + [last];
      AdmittedNext(limit, init, last, key);
      AscendingSnoc(Admitted(limit, init, key), last.now);
    }
  }

  /** The stored history is the log without some entries that have left the window. */
  ghost predicate Keeps(history: seq<int>, log: seq<int>, start: int) {
    |history| <= |log| && history == log[|log| - |history|..]
    && forall i :: 0 <= i < |log| - |history| ==> log[i] < start
  }

  lemma KeepsPruned(history: seq<int>, log: seq<int>, start: int)
    requires Keeps(history, log, start)
    ensures Keeps(Prune(history, start), log, start)
  {
    var k := PruneIsTail(history, start);
    var n := |log| - |history|;
    assert history[k..] == log[n + k..];
    forall i | 0 <= i < n + k ensures log[i] < start {
      if i >= n {
        assert history[i - n] == log[i];
      }
    }
  }

  lemma KeepsSnoc(history: seq<int>, log: seq<int>, start: int, x: int)
    requires Keeps(history, log, start)
    ensures Keeps(history + [x], log + [x], start)
  {
    var n := |log| - |history|;
    assert (log + [x])[n..] == log[n..] + [x];
  }

  lemma KeepsLater(history: seq<int>, log: seq<int>, early: int, start: int)
    requires Keeps(history, log, early) && early <= start
    ensures Keeps(history, log, start)
  {
  }

  /** What a request does to the history of a key; `mine` says that it is for that key. */
  function NextHistory(history: seq<int>, mine: bool, limit: int, now: int): seq<int> {
    var pruned := Prune(history, now - WINDOW);
    if !mine then history else if |pruned| >= limit then pruned else pruned + [now]
  }

  function NextLog(history: seq<int>, log: seq<int>, mine: bool, limit: int, now: int): seq<int> {
    if mine && |Prune(history, now - WINDOW)| < limit then log + [now] else log
  }

  lemma KeepsNext(history: seq<int>, log: seq<int>, mine: bool, limit: int, now: int)
    requires Keeps(history, log, now - WINDOW)
    ensures Keeps(NextHistory(history, mine, limit, now), NextLog(history, log, mine, limit, now), now - WINDOW)
  {
    KeepsPruned(history, log, now - WINDOW);
    KeepsSnoc(Prune(history, now - WINDOW), log, now - WINDOW, now);
  }

  lemma {:induction false} HistoryKeeps(limit: string -> int, run: seq<Request>, key: string, now: int)
    requires Timely(run) && NotAfter(run, now)
    ensures Keeps(HistoryOf(Serve(limit, run), key), Admitted(limit, run, key), now - WINDOW)
  {
    if run != [] {
      var init, last := run[..|run| - 1], run[|run| - 1];
      HistoryKeeps(limit, init, key, last.now);
      HistoryKeepsNext(limit, init, last, run, key);
      KeepsLater(HistoryOf(Serve(limit, run), key), Admitted(limit, run, key), last.now - WINDOW, now - WINDOW);
    }
  }

  lemma HistoryKeepsNext(limit: string -> int, run: seq<Request>, r: Request, next: seq<Request>, key: string)
    requires next == run + [r]
    requires Keeps(HistoryOf(Serve(limit, run), key), Admitted(limit, run, key), r.now - WINDOW)
    ensures Keeps(HistoryOf(Serve(limit, next), key), Admitted(limit, next, key), r.now - WINDOW)
  {
    HistoryNext(limit, run, r, key);
    LogNext(limit, run, r, key);
    KeepsNext(HistoryOf(Serve(limit, run), key), Admitted(limit, run, key), r.key == key, limit(key), r.now);
  }

  lemma HistoryNext(limit: string -> int, run: seq<Request>, r: Request, key: string)
    ensures HistoryOf(Serve(limit, run + [r]), key)
            == NextHistory(HistoryOf(Serve(limit, run), key), r.key == key, limit(key), r.now)
  {
    ServeNext(limit, run, r);
  }

  lemma LogNext(limit: string -> int, run: seq<Request>, r: Request, key: string)
    ensures Admitted(limit, run + [r], key)
            == NextLog(HistoryOf(Serve(limit, run), key), Admitted(limit, run, key), r.key == key, limit(key), r.now)
  {
    AdmittedNext(limit, run, r, key);
    assert Admitted(limit, run, key) + [] == Admitted(limit, run, key);
  }

  /** The pruned queue is the full admission log, filtered to the window. */
  lemma QueueIsTheWindow(limit: string -> int, run: seq<Request>, key: string, now: int)
    requires Timely(run) && NotAfter(run, now)
    ensures Prune(HistoryOf(Serve(limit, run), key), now - WINDOW)
            == Between(Admitted(limit, run, key), now - WINDOW, now)
  {
    HistoryKeeps(limit, run, key, now);
    LogIsAscending(limit, run, key, now);
    PrunedTail(HistoryOf(Serve(limit, run), key), Admitted(limit, run, key), now);
  }

  lemma PrunedTail(history: seq<int>, log: seq<int>, now: int)
    requires Keeps(history, log, now - WINDOW) && Ascending(log) && NotLater(log, now)
    ensures Prune(history, now - WINDOW) == Between(log, now - WINDOW, now)
  {
    var start := now - WINDOW;
    var pruned := Prune(history, start);
    KeepsPruned(history, log, start);
    var k := PruneIsTail(history, start);
    var n := |log| - |pruned|;
    forall i | n <= i < |log| ensures start <= log[i] <= now {
      assert pruned[0] == log[n] <= log[i];
    }
    BetweenTail(log, n, start, now);
  }

  lemma AllowedIffRoom(limit: string -> int, run: seq<Request>, r: Request)
    requires Timely(run) && NotAfter(run, r.now)
    ensures Answer(limit, run, r).allowed
            <==> |Between(Admitted(limit, run, r.key), r.now - WINDOW, r.now)| < limit(r.key)
  {
    QueueIsTheWindow(limit, run, r.key, r.now);
  }

  /** A request is denied exactly when its window already holds as many admissions as the limit allows. */
  lemma DeniedExactlyWhenFull(limit: string -> int, run: seq<Request>, r: Request)
    requires Timely(run) && NotAfter(run, r.now)
    ensures var used := |Between(Admitted(limit, run, r.key), r.now - 60000, r.now)|;
            && (Answer(limit, run, r).allowed <==> used < limit(r.key))
            && (Answer(limit, run, r).allowed ==> Answer(limit, run, r).remaining == limit(r.key) - (used + 1))
            && (Answer(limit, run, r).allowed ==> Answer(limit, run, r).retryAfterMs == 0)
            && (!Answer(limit, run, r).allowed ==> Answer(limit, run, r).remaining == 0)
  {
    AllowedIffRoom(limit, run, r);
    if Answer(limit, run, r).allowed {
      RemainingRoom(limit, run, r);
    }
  }

  lemma JudgeRemaining(pruned: seq<int>, limit: int, now: int)
    requires Judge(pruned, limit, now).allowed
    ensures Judge(pruned, limit, now).remaining == limit - (|pruned| + 1)
  {
  }

  lemma RemainingRoom(limit: string -> int, run: seq<Request>, r: Request)
    requires Timely(run) && NotAfter(run, r.now) && Answer(limit, run, r).allowed
    ensures Answer(limit, run, r).remaining
            == limit(r.key) - (|Between(Admitted(limit, run, r.key), r.now - WINDOW, r.now)| + 1)
  {
    QueueIsTheWindow(limit, run, r.key, r.now);
    JudgeRemaining(Prune(HistoryOf(Serve(limit, run), r.key), r.now - WINDOW), limit(r.key), r.now);
  }

  /** Every closed interval of 60,000 ms, wherever it lies, holds at most as many admissions as the limit. */
  lemma NeverMoreThanTheLimit(limit: string -> int, run: seq<Request>, key: string, a: int)
    requires Timely(run) && limit(key) >= 0
    ensures |Between(Admitted(limit, run, key), a, a + 60000)| <= limit(key)
  {
    WindowHoldsLimit(limit, run, key, a);
  }

  lemma {:induction false} WindowHoldsLimit(limit: string -> int, run: seq<Request>, key: string, a: int)
    requires Timely(run) && limit(key) >= 0
    ensures |Between(Admitted(limit, run, key), a, a + WINDOW)| <= limit(key)
  {
    if run != [] {
      var init, last := run[..|run| - 1], run[|run| - 1];
      WindowHoldsLimit(limit, init, key, a);
      OneMore(limit, init, last, key, a);
      assert run == init + [last];
    } else {
      assert Admitted(limit, run, key) == [];
    }
  }

  lemma OneMore(limit: string -> int, run: seq<Request>, r: Request, key: string, a: int)
    requires Timely(run) && NotAfter(run, r.now) && |Between(Admitted(limit, run, key), a, a + WINDOW)| <= limit(key)
    ensures |Between(Admitted(limit, run + [r], key), a, a + WINDOW)| <= limit(key)
  {
    var log := Admitted(limit, run, key);
    AdmittedNext(limit, run, r, key);
    if r.key == key && Answer(limit, run, r).allowed {
      AllowedIffRoom(limit, run, r);
      BetweenSnoc(log, r.now, a, a + WINDOW);
      if a <= r.now <= a + WINDOW {
        UpToNow(limit, run, key, a, a + WINDOW, r.now);
      }
    } else {
      assert log + [] == log;
    }
  }

  /** Nothing was admitted later than now. */
  lemma UpToNow(limit: string -> int, run: seq<Request>, key: string, a: int, b: int, now: int)
    requires Timely(run) && NotAfter(run, now) && now - WINDOW <= a && now <= b
    ensures |Between(Admitted(limit, run, key), a, b)| <= |Between(Admitted(limit, run, key), now - WINDOW, now)|
  {
    var log := Admitted(limit, run, key);
    LogIsAscending(limit, run, key, now);
    BetweenCapped(log, a, b, now);
    BetweenNarrower(log, now - WINDOW, now, a, now);
  }

  lemma {:induction false} BetweenCapped(log: seq<int>, a: int, b: int, now: int)
    requires now <= b && NotLater(log, now)
    ensures Between(log, a, b) == Between(log, a, now)
  {
    if log != [] {
      BetweenCapped(log[..|log| - 1], a, b, now);
    }
  }

  // ------------------------------------------------------------------ the retry hint

  /** A full window starts with its oldest entry, and is full until that entry leaves. */
  lemma RetryHint(limit: string -> int, run: seq<Request>, denied: Request)
    requires Timely(run) && NotAfter(run, denied.now) && limit(denied.key) > 0
    requires !Answer(limit, run, denied).allowed
    ensures var window := Between(Admitted(limit, run, denied.key), denied.now - 60000, denied.now);
            && |window| == limit(denied.key)
            && denied.now + Answer(limit, run, denied).retryAfterMs == window[0] + 60000
            && 0 <= Answer(limit, run, denied).retryAfterMs <= 60000
  {
    var start := denied.now - WINDOW;
    AllowedIffRoom(limit, run, denied);
    WindowHoldsLimit(limit, run, denied.key, start);
    assert start + WINDOW == denied.now;
    WindowBounds(Admitted(limit, run, denied.key), start, denied.now);
    HintAt(limit, run, denied, Between(Admitted(limit, run, denied.key), start, denied.now));
  }

  lemma JudgeHint(pruned: seq<int>, limit: int, now: int)
    requires !Judge(pruned, limit, now).allowed && pruned != [] && now - WINDOW <= pruned[0]
    ensures now + Judge(pruned, limit, now).retryAfterMs == pruned[0] + WINDOW
  {
  }

  lemma HintAt(limit: string -> int, run: seq<Request>, denied: Request, window: seq<int>)
    requires Timely(run) && NotAfter(run, denied.now) && !Answer(limit, run, denied).allowed
    requires window == Between(Admitted(limit, run, denied.key), denied.now - WINDOW, denied.now)
    requires window != [] && denied.now - WINDOW <= window[0]
    ensures denied.now + Answer(limit, run, denied).retryAfterMs == window[0] + WINDOW
  {
    QueueIsTheWindow(limit, run, denied.key, denied.now);
    JudgeHint(window, limit(denied.key), denied.now);
  }

  lemma {:induction false} WindowBounds(log: seq<int>, a: int, b: int)
    ensures forall i :: 0 <= i < |Between(log, a, b)| ==> a <= Between(log, a, b)[i] <= b
  {
    if log != [] {
      WindowBounds(log[..|log| - 1], a, b);
    }
  }

  /** Moving the start of the interval forward prunes what was in it. */
  lemma {:induction false} LaterStart(log: seq<int>, a: int, c: int, b: int)
    requires Ascending(log) && a <= c
    ensures Between(log, c, b) == Prune(Between(log, a, b), c)
  {
    if log != [] {
      var init, last := log[..|log| - 1], log[|log| - 1];
      var kept := Between(init, a, b);
      LaterStart(init, a, c, b);
      WindowMembers(init, a, b, last);
      PruneSnoc(kept, last, c);
      assert kept + [] == kept;
    }
  }

  lemma {:induction false} WindowMembers(log: seq<int>, a: int, b: int, x: int)
    requires NotLater(log, x)
    ensures NotLater(Between(log, a, b), x)
  {
    if log != [] {
      WindowMembers(log[..|log| - 1], a, b, x);
    }
  }

  lemma {:induction false} PruneSnoc(s: seq<int>, x: int, c: int)
    requires NotLater(s, x)
    ensures Prune(s + [x], c) == Prune(s, c) + (if x >= c then [x] else [])
  {
    if s == [] {
      assert [] + [x] == [x];
      assert [x][1..] == [];
    } else {
      assert (s + [x])[1..] == s[1..] + [x];
      if s[0] < c {
        PruneSnoc(s[1..], x, c);
      } else {
        assert s[0] <= x;
      }
    }
  }

  /**
   * Without admissions in between, whether a later request is admitted depends on the oldest entry of the full window.
   */
  lemma FullWindowReopens(log: seq<int>, limit: int, now: int, later: int)
    requires Ascending(log) && NotLater(log, now) && now <= later
    requires |Between(log, now - WINDOW, now)| == limit && limit > 0
    ensures |Between(log, later - WINDOW, later)| < limit <==> later > Between(log, now - WINDOW, now)[0] + WINDOW
  {
    var window := Between(log, now - WINDOW, now);
    BetweenCapped(log, now - WINDOW, later, now);
    LaterStart(log, now - WINDOW, later - WINDOW, later);
    var k := PruneIsTail(window, later - WINDOW);
  }

  /**
   * After a denial, and as long as nothing is admitted for the key, a request is admitted exactly when it comes
   * more than retryAfterMs later: the hint itself is one millisecond short.
   */
  lemma RetryExact(limit: string -> int, run: seq<Request>, denied: Request, later: seq<Request>, retry: Request)
    requires run + [denied] <= later && Timely(later) && NotAfter(later, retry.now)
    requires limit(denied.key) > 0 && retry.key == denied.key
    requires !Answer(limit, run, denied).allowed
    requires Admitted(limit, later, denied.key) == Admitted(limit, run, denied.key)
    ensures Answer(limit, later, retry).allowed <==> retry.now > denied.now + Answer(limit, run, denied).retryAfterMs
  {
    TimelyParts(run, denied, later, retry.now);
    RetryFromLog(limit, run, denied, later, retry);
  }

  lemma RetryFromLog(limit: string -> int, run: seq<Request>, denied: Request, later: seq<Request>, retry: Request)
    requires Timely(run) && NotAfter(run, denied.now) && denied.now <= retry.now && Timely(later)
             && NotAfter(later, retry.now)
    requires limit(denied.key) > 0 && retry.key == denied.key
    requires !Answer(limit, run, denied).allowed
    requires Admitted(limit, later, denied.key) == Admitted(limit, run, denied.key)
    ensures Answer(limit, later, retry).allowed <==> retry.now > denied.now + Answer(limit, run, denied).retryAfterMs
  {
    ReopensAt(limit, run, denied, retry.now);
    AllowedIffRoom(limit, later, retry);
  }

  lemma ReopensAt(limit: string -> int, run: seq<Request>, denied: Request, t: int)
    requires Timely(run) && NotAfter(run, denied.now) && denied.now <= t && limit(denied.key) > 0
    requires !Answer(limit, run, denied).allowed
    ensures |Between(Admitted(limit, run, denied.key), t - WINDOW, t)| < limit(denied.key)
            <==> t > denied.now + Answer(limit, run, denied).retryAfterMs
  {
    RetryHint(limit, run, denied);
    LogIsAscending(limit, run, denied.key, denied.now);
    FullWindowReopens(Admitted(limit, run, denied.key), limit(denied.key), denied.now, t);
  }

  lemma ServedOnce(limit: string -> int)
    requires limit("k") == 1
    ensures Serve(limit, [Request("k", 0)]) == map["k" := [0]]
  {
    var first := Request("k", 0);
    assert Serve(limit, []) == map[];
    ServeNext(limit, [], first);
    assert [] + [first] == [first] && [] + [0] == [0];
  }

  lemma ServedTwice(limit: string -> int)
    requires limit("k") == 1
    ensures Serve(limit, [Request("k", 0), Request("k", 0)]) == map["k" := [0]]
  {
    var first := Request("k", 0);
    ServedOnce(limit);
    ServeNext(limit, [first], first);
    assert [first] + [first] == [first, first];
  }

  lemma JudgedFull(limit: string -> int, run: seq<Request>, now: int)
    requires limit("k") == 1 && Serve(limit, run) == map["k" := [0]] && 0 <= now <= 60000
    ensures Answer(limit, run, Request("k", now)) == Verdict(false, 0, 60000 - now)
  {
    assert Prune([0], now - WINDOW) == [0];
  }

  /** With one request a minute: denied at time 0, the hint is 60,000 ms, and 60,000 ms later it is denied again. */
  lemma HintIsOneShort(limit: string -> int)
    requires limit("k") == 1
    ensures var first := Request("k", 0);
            && Answer(limit, [first], first) == Verdict(false, 0, 60000)
            && !Answer(limit, [first, first], Request("k", 60000)).allowed
  {
    ServedOnce(limit);
    ServedTwice(limit);
    JudgedFull(limit, [Request("k", 0)], 0);
    JudgedFull(limit, [Request("k", 0), Request("k", 0)], 60000);
  }

  lemma TimelyParts(run: seq<Request>, r: Request, later: seq<Request>, now: int)
    requires run + [r] <= later && Timely(later) && NotAfter(later, now)
    ensures Timely(run) && NotAfter(run, r.now) && r.now <= now
  {
    assert later[|run|] == r;
    assert forall i :: 0 <= i < |run| ==> later[i] == run[i];
  }
}
