/**
 The cap on handshake attempts: attempts are counted per client block in
 fixed windows. Times are nanoseconds since the zero time, which is where a
 new limiter's first window nominally starts.
 */
module RateLimit {
  const SECOND := 1_000_000_000
  const HANDSHAKE_LIMIT := 30
  const HANDSHAKE_WINDOW := 60 * SECOND

  datatype Config = Config(limit: nat, window: nat)

  predicate Sensible(c: Config) { c.window > 0 }

  datatype Limiter = Limiter(start: nat, counts: map<string, nat>, warned: bool)

  const FRESH := Limiter(0, map[], false)

  datatype Attempt = Attempt(key: string, now: nat)

  datatype Outcome = Outcome(ok: bool, wait: int, first: bool)

  function Count(s: Limiter, key: string): nat { if key in s.counts then s.counts[key] else 0 }

  /** A new window begins with the first attempt at or after the end of the old one. */
  function Renewed(c: Config, s: Limiter, now: nat): Limiter {
    if now - s.start >= c.window then Limiter(now, map[], false) else s
  }

  function Allow(c: Config, s: Limiter, a: Attempt): (Limiter, Outcome) {
    var w := Renewed(c, s, a.now);
    if Count(w, a.key) >= c.limit then
      (w.(warned := true), Outcome(false, w.start + c.window - a.now, !w.warned))
    else
      (w.(counts := w.counts[a.key := Count(w, a.key) + 1]), Outcome(true, 0, false))
  }

  /** The Retry-After header: whole seconds of the wait, and one more. */
  function RetryAfter(wait: int): int { wait / SECOND + 1 }

  // ---- traces ----

  predicate InTime(trace: seq<Attempt>) { forall i, j :: 0 <= i < j < |trace| ==> trace[i].now <= trace[j].now }

  function StateAt(c: Config, trace: seq<Attempt>, n: nat): Limiter
    requires n <= |trace|
  {
    if n == 0 then FRESH else Allow(c, StateAt(c, trace, n - 1), trace[n - 1]).0
  }

  function OutcomeAt(c: Config, trace: seq<Attempt>, i: nat): Outcome
    requires i < |trace|
  {
    Allow(c, StateAt(c, trace, i), trace[i]).1
  }

  /** The start of the window an attempt falls in. */
  function WindowOf(c: Config, trace: seq<Attempt>, i: nat): nat
    requires i < |trace|
  {
    StateAt(c, trace, i + 1).start
  }

  /** Admissions of a key in the window w among the first n attempts. */
  function Admitted(c: Config, trace: seq<Attempt>, n: nat, key: string, w: nat): nat
    requires n <= |trace|
  {
    if n == 0 then 0
    else
      var i := n - 1;
      var more := if OutcomeAt(c, trace, i).ok && trace[i].key == key && WindowOf(c, trace, i) == w then 1 else 0;
      Admitted(c, trace, i, key, w) + more
  }

  /** Refusals flagged first in the window w among the first n attempts. */
  function Flagged(c: Config, trace: seq<Attempt>, n: nat, w: nat): nat
    requires n <= |trace|
  {
    if n == 0 then 0
    else
      var more := if OutcomeAt(c, trace, n - 1).first && WindowOf(c, trace, n - 1) == w then 1 else 0;
      Flagged(c, trace, n - 1, w) + more
  }

  lemma StepStart(c: Config, trace: seq<Attempt>, n: nat)
    requires n < |trace|
    ensures var s, t := StateAt(c, trace, n), StateAt(c, trace, n + 1);
            t.start == if trace[n].now - s.start >= c.window then trace[n].now else s.start
  {
  }

  /** A window holds attempts from its start up to, not with, its end. */
  lemma {:induction false} WindowHolds(c: Config, trace: seq<Attempt>, i: nat)
    requires Sensible(c) && InTime(trace) && i < |trace|
    ensures WindowOf(c, trace, i) <= trace[i].now < WindowOf(c, trace, i) + c.window
  {
    StepStart(c, trace, i);
    if i > 0 {
      WindowHolds(c, trace, i - 1);
    }
  }

  /** Windows follow each other at least a window length apart. */
  lemma {:induction false} WindowsApart(c: Config, trace: seq<Attempt>, i: nat, j: nat)
    requires Sensible(c) && InTime(trace) && i <= j < |trace|
    ensures WindowOf(c, trace, j) == WindowOf(c, trace, i) || WindowOf(c, trace, j) >= WindowOf(c, trace, i) + c.window
    decreases j
  {
    if i < j {
      WindowsApart(c, trace, i, j - 1);
      StepStart(c, trace, j);
    }
  }

  lemma {:induction false} NoneYet(c: Config, trace: seq<Attempt>, n: nat, w: nat, key: string)
    requires n <= |trace| && forall i :: 0 <= i < n ==> WindowOf(c, trace, i) != w
    ensures Admitted(c, trace, n, key, w) == 0 && Flagged(c, trace, n, w) == 0
  {
    if n > 0 {
      NoneYet(c, trace, n - 1, w, key);
    }
  }

  /** The state counts what happened in its window. */
  ghost predicate Tallies(c: Config, trace: seq<Attempt>, n: nat, key: string)
    requires n <= |trace|
  {
    var s := StateAt(c, trace, n);
    && Count(s, key) == Admitted(c, trace, n, key, s.start)
    && Flagged(c, trace, n, s.start) == if s.warned then 1 else 0
  }

  lemma NewWindow(c: Config, trace: seq<Attempt>, n: nat, key: string, w: nat)
    requires Sensible(c) && InTime(trace) && n <= |trace| && w >= StateAt(c, trace, n).start + c.window
    ensures Admitted(c, trace, n, key, w) == 0 && Flagged(c, trace, n, w) == 0
  {
  }

  /** At a new window nothing has happened in it. */
  lemma RenewedTallies(c: Config, trace: seq<Attempt>, n: nat, key: string)
    requires Sensible(c) && InTime(trace) && n < |trace| && Tallies(c, trace, n, key)
    ensures var w := Renewed(c, StateAt(c, trace, n), trace[n].now);
            && Count(w, key) == Admitted(c, trace, n, key, w.start)
            && Flagged(c, trace, n, w.start) == if w.warned then 1 else 0
  {
    if trace[n].now - StateAt(c, trace, n).start >= c.window {
      NewWindow(c, trace, n, key, trace[n].now);
    }
  }

  lemma {:induction false} AlwaysTallies(c: Config, trace: seq<Attempt>, n: nat, key: string)
    requires Sensible(c) && InTime(trace) && n <= |trace|
    ensures Tallies(c, trace, n, key)
  {
    if n > 0 {
      AlwaysTallies(c, trace, n - 1, key);
      RenewedTallies(c, trace, n - 1, key);
    }
  }

  /** An attempt is admitted exactly when its key has admissions left in its window. */
  lemma AdmittedIffLeft(c: Config, trace: seq<Attempt>, i: nat)
    requires Sensible(c) && InTime(trace) && i < |trace|
    ensures OutcomeAt(c, trace, i).ok <==> Admitted(c, trace, i, trace[i].key, WindowOf(c, trace, i)) < c.limit
    ensures OutcomeAt(c, trace, i).ok ==> OutcomeAt(c, trace, i) == Outcome(true, 0, false)
  {
    AlwaysTallies(c, trace, i, trace[i].key);
    RenewedTallies(c, trace, i, trace[i].key);
  }

  /** No key is admitted more often than the limit in any window. */
  lemma {:induction false} LimitPerWindow(c: Config, trace: seq<Attempt>, n: nat, key: string, w: nat)
    requires Sensible(c) && InTime(trace) && n <= |trace|
    ensures Admitted(c, trace, n, key, w) <= c.limit
  {
    if n > 0 {
      LimitPerWindow(c, trace, n - 1, key, w);
      AdmittedIffLeft(c, trace, n - 1);
    }
  }

  /** At most one refusal in a window is flagged first. */
  lemma {:induction false} FirstOnce(c: Config, trace: seq<Attempt>, n: nat, w: nat)
    requires Sensible(c) && InTime(trace) && n <= |trace|
    ensures Flagged(c, trace, n, w) <= 1
  {
    if n > 0 {
      FirstOnce(c, trace, n - 1, w);
      AlwaysTallies(c, trace, n - 1, "");
      RenewedTallies(c, trace, n - 1, "");
    }
  }

  // ---- any span ----

  /** Admissions of a key from lo to hi among the first n attempts. */
  function InSpan(c: Config, trace: seq<Attempt>, n: nat, key: string, lo: int, hi: int): nat
    requires n <= |trace|
  {
    if n == 0 then 0
    else InSpan(c, trace, n - 1, key, lo, hi) + if Spans(c, trace, n - 1, key, lo, hi) then 1 else 0
  }

  predicate Spans(c: Config, trace: seq<Attempt>, i: nat, key: string, lo: int, hi: int)
    requires i < |trace|
  {
    OutcomeAt(c, trace, i).ok && trace[i].key == key && lo <= trace[i].now <= hi
  }

  lemma {:induction false} TwoWindows(
    c: Config, trace: seq<Attempt>, n: nat, key: string, lo: int, hi: int, v: nat, w: nat)
    requires n <= |trace|
    requires forall i :: 0 <= i < n && Spans(c, trace, i, key, lo, hi) ==> WindowOf(c, trace, i) in {v, w}
    ensures InSpan(c, trace, n, key, lo, hi) <= Admitted(c, trace, n, key, v) + Admitted(c, trace, n, key, w)
  {
    if n > 0 {
      TwoWindows(c, trace, n - 1, key, lo, hi, v, w);
    }
  }

  /** A span of a window's length meets at most two windows. */
  lemma SpanWindows(c: Config, trace: seq<Attempt>, lo: int, hi: int, i: nat, j: nat, k: nat)
    requires Sensible(c) && InTime(trace) && i <= j <= k < |trace| && hi <= lo + c.window
    requires lo <= trace[i].now && trace[k].now <= hi
    ensures WindowOf(c, trace, j) == WindowOf(c, trace, i) || WindowOf(c, trace, k) == WindowOf(c, trace, j)
  {
    WindowsApart(c, trace, i, j);
    WindowsApart(c, trace, j, k);
    WindowHolds(c, trace, i);
    WindowHolds(c, trace, k);
  }

  /** The windows of the attempts in a span: that of the first, and that of the first outside it. */
  lemma {:induction false} FindWindows(c: Config, trace: seq<Attempt>, n: nat, key: string, lo: int, hi: int)
    returns (v: nat, w: nat)
    requires Sensible(c) && InTime(trace) && n <= |trace| && hi <= lo + c.window
    ensures forall i :: 0 <= i < n && Spans(c, trace, i, key, lo, hi) ==> WindowOf(c, trace, i) in {v, w}
    ensures (v == w && forall i :: 0 <= i < n ==> !Spans(c, trace, i, key, lo, hi)) ||
      exists i, j :: 0 <= i <= j < n && Spans(c, trace, i, key, lo, hi) && Spans(c, trace, j, key, lo, hi)
                     && WindowOf(c, trace, i) == v && WindowOf(c, trace, j) == w
  {
    if n == 0 {
      v, w := 0, 0;
    } else {
      v, w := FindWindows(c, trace, n - 1, key, lo, hi);
      var k := n - 1;
      if Spans(c, trace, k, key, lo, hi) {
        var u := WindowOf(c, trace, k);
        if forall i :: 0 <= i < k ==> !Spans(c, trace, i, key, lo, hi) {
          v, w := u, u;
        } else {
          var i, j :| 0 <= i <= j < k && Spans(c, trace, i, key, lo, hi) && Spans(c, trace, j, key, lo, hi)
                     && WindowOf(c, trace, i) == v && WindowOf(c, trace, j) == w;
          SpanWindows(c, trace, lo, hi, i, j, k);
          if v == w {
            w := u;
          }
        }
      }
    }
  }

  /** In any span of a window's length a key is admitted at most twice the limit. */
  lemma TwiceInAnySpan(c: Config, trace: seq<Attempt>, key: string, lo: int, hi: int)
    requires Sensible(c) && InTime(trace) && hi <= lo + c.window
    ensures InSpan(c, trace, |trace|, key, lo, hi) <= 2 * c.limit
  {
    var n := |trace|;
    var v, w := FindWindows(c, trace, n, key, lo, hi);
    TwoWindows(c, trace, n, key, lo, hi, v, w);
    LimitPerWindow(c, trace, n, key, v);
    LimitPerWindow(c, trace, n, key, w);
  }

  /** With the handshake limits: at most sixty in any minute. */
  lemma HandshakesPerMinute(trace: seq<Attempt>, key: string, lo: int)
    requires InTime(trace)
    ensures InSpan(Config(HANDSHAKE_LIMIT, HANDSHAKE_WINDOW), trace, |trace|, key, lo, lo + HANDSHAKE_WINDOW) <= 60
  {
    TwiceInAnySpan(Config(HANDSHAKE_LIMIT, HANDSHAKE_WINDOW), trace, key, lo, lo + HANDSHAKE_WINDOW);
  }

  /** Waiting as long as the answer says reaches past the window's end, by a second at most. */
  lemma RetryReachesPast(c: Config, trace: seq<Attempt>, i: nat)
    requires Sensible(c) && InTime(trace) && i < |trace| && !OutcomeAt(c, trace, i).ok
    ensures var end := WindowOf(c, trace, i) + c.window;
            end < trace[i].now + RetryAfter(OutcomeAt(c, trace, i).wait) * SECOND <= end + SECOND
  {
  }

  class RateLimiter {
    const config: Config
    var start: nat
    var counts: map<string, nat>
    var warned: bool

    constructor (config: Config)
      ensures this.config == config && View() == FRESH
    {
      this.config := config;
      start, counts, warned := 0, map[], false;
    }

    function View(): Limiter
      reads this
    {
      Limiter(start, counts, warned)
    }

    method Try(key: string, now: nat) returns (ok: bool, wait: int, first: bool)
      modifies this
      ensures (View(), Outcome(ok, wait, first)) == Allow(config, old(View()), Attempt(key, now))
    {
      if now - start >= config.window {
        start, counts, warned := now, map[], false;
      }
      var count := if key in counts then counts[key] else 0;
      if count >= config.limit {
        first := !warned;
        warned := true;
        return false, start + config.window - now, first;
      }
      counts := counts[key := count + 1];
      return true, 0, false;
    }
  }
}
