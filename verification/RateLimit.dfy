/** The relay's fixed-window rate limiter. Times are nanoseconds, 0 is Go's zero time. */
module RateLimit {
  const MINUTE := 60 * 1_000_000_000

  datatype Window = Window(startedAt: int, count: int)

  datatype Decision = Decision(allowed: bool, count: int, limit: int, windowStartedAt: int)

  type Windows = map<string, Window>

  function WindowOf(windows: Windows, key: string): Window {
    if key in windows then windows[key] else Window(0, 0)
  }

  function Decide(w: Window, limit: int, now: int): (Window, Decision) {
    var current := if w.startedAt == 0 || now - w.startedAt >= MINUTE then Window(now, 0) else w;
    if current.count >= limit
    then (current, Decision(false, current.count, limit, current.startedAt))
    else (current.(count := current.count + 1), Decision(true, current.count + 1, limit, current.startedAt))
  }

  class RateLimiter {
    var windows: Windows
    const limit: int

    constructor (limit: int)
      ensures this.limit == limit && windows == map[]
    {
      this.limit := limit;
      windows := map[];
    }

    method Allow(mailbox: string, now: int) returns (d: Decision)
      modifies this
      ensures windows == old(windows)[mailbox := Decide(WindowOf(old(windows), mailbox), limit, now).0]
      ensures d == Decide(WindowOf(old(windows), mailbox), limit, now).1
    {
      var window := if mailbox in windows then windows[mailbox] else Window(0, 0);
      if window.startedAt == 0 || now - window.startedAt >= MINUTE {
        window := Window(now, 0);
      }
      if window.count >= limit {
        windows := windows[mailbox := window];
        return Decision(false, window.count, limit, window.startedAt);
      }
      window := window.(count := window.count + 1);
      windows := windows[mailbox := window];
      return Decision(true, window.count, limit, window.startedAt);
    }
  }

  // ---- runs: calls on any keys, interleaved ----

  datatype Call = Call(key: string, at: int)

  function After(calls: seq<Call>, limit: int): Windows {
    if calls == [] then map[]
    else
      var before, c := After(calls[..|calls| - 1], limit), calls[|calls| - 1];
      before[c.key := Decide(WindowOf(before, c.key), limit, c.at).0]
  }

  /** What the limiter answers to one more call after a run. */
  function Answer(calls: seq<Call>, limit: int, next: Call): Decision {
    Decide(WindowOf(After(calls, limit), next.key), limit, next.at).1
  }

  /** Calls on key in [from, to) that a run admits. */
  function Admitted(calls: seq<Call>, limit: int, key: string, from: int, to: int): nat {
    if calls == [] then 0
    else
      var front, c := calls[..|calls| - 1], calls[|calls| - 1];
      Admitted(front, limit, key, from, to)
      + if c.key == key && from <= c.at < to && Answer(front, limit, c).allowed then 1 else 0
  }

  /** Calls on key that a run admits into the window that started at the given time. */
  function AdmittedInWindow(calls: seq<Call>, limit: int, key: string, start: int): nat {
    if calls == [] then 0
    else
      var front, c := calls[..|calls| - 1], calls[|calls| - 1];
      AdmittedInWindow(front, limit, key, start)
      + if c.key == key && Answer(front, limit, c).allowed && Answer(front, limit, c).windowStartedAt == start then 1 else 0
  }

  /** A clock that does not run backwards and never shows the zero time. */
  ghost predicate Clocked(calls: seq<Call>) {
    && (forall i, j :: 0 <= i < j < |calls| ==> calls[i].at <= calls[j].at)
    && (forall i :: 0 <= i < |calls| ==> calls[i].at != 0)
  }

  ghost predicate IntervalInvariant(w: Window, limit: int, admitted: nat, from: int, last: int) {
    && 0 <= w.count <= limit
    && (w.startedAt == 0 ==> w.count == 0 && admitted == 0)
    && (w.startedAt != 0 ==> 1 <= w.count && w.startedAt <= last)
    && (last < from ==> admitted == 0)
    && (w.startedAt != 0 && w.startedAt < from ==> admitted <= w.count - 1)
    && (from <= w.startedAt < from + MINUTE ==> admitted <= limit - 1 + w.count)
    && admitted <= 2 * limit - 1
  }

  lemma {:induction false} IntervalHolds(calls: seq<Call>, limit: int, key: string, from: int)
    requires limit >= 1 && calls != [] && Clocked(calls)
    ensures IntervalInvariant(WindowOf(After(calls, limit), key), limit,
              Admitted(calls, limit, key, from, from + MINUTE), from, calls[|calls| - 1].at)
  {
    if |calls| > 1 {
      IntervalHolds(calls[..|calls| - 1], limit, key, from);
      assert calls[|calls| - 2].at <= calls[|calls| - 1].at;
    } else {
      assert After(calls[..0], limit) == map[] && Admitted(calls[..0], limit, key, from, from + MINUTE) == 0;
    }
  }

  /**
   Whatever calls on other keys are interleaved, any half-open minute admits at
   most 2L - 1 calls on a key: one better than two full windows, because the
   older window's first call always lies before the interval.
   */
  lemma {:induction false} AnyMinuteBound(calls: seq<Call>, limit: int, key: string, from: int)
    requires limit >= 1 && Clocked(calls)
    ensures Admitted(calls, limit, key, from, from + 60 * 1_000_000_000) <= 2 * limit - 1
  {
    if calls != [] { IntervalHolds(calls, limit, key, from); }
  }

  lemma {:induction false} WindowHolds(calls: seq<Call>, limit: int, key: string, start: int)
    requires limit >= 1 && Clocked(calls)
    ensures var w := WindowOf(After(calls, limit), key);
      && 0 <= w.count <= limit
      && (w.startedAt != 0 ==> calls != [] && w.startedAt <= calls[|calls| - 1].at)
      && AdmittedInWindow(calls, limit, key, start) <= limit
      && (start != 0 && (w.startedAt == 0 || start > w.startedAt) ==> AdmittedInWindow(calls, limit, key, start) == 0)
      && (start != 0 && start == w.startedAt ==> AdmittedInWindow(calls, limit, key, start) == w.count)
      && (start == 0 ==> AdmittedInWindow(calls, limit, key, start) == 0)
  {
    if calls != [] {
      WindowHolds(calls[..|calls| - 1], limit, key, start);
      if |calls| > 1 { assert calls[|calls| - 2].at <= calls[|calls| - 1].at; }
    }
  }

  /** Each window admits at most L calls. */
  lemma {:induction false} EachWindowBound(calls: seq<Call>, limit: int, key: string, start: int)
    requires limit >= 1 && Clocked(calls)
    ensures AdmittedInWindow(calls, limit, key, start) <= limit
  {
    WindowHolds(calls, limit, key, start);
  }

  lemma {:induction false} StartsAreApart(calls: seq<Call>, limit: int, key: string, i: nat)
    requires Clocked(calls) && i < |calls| && calls[i].key == key
    ensures var start, w := Answer(calls[..i], limit, calls[i]).windowStartedAt, WindowOf(After(calls, limit), key);
      && start != 0 && start <= calls[i].at < start + MINUTE
      && w.startedAt != 0 && (w.startedAt == start || w.startedAt - start >= MINUTE)
    decreases |calls|
  {
    var front, last := calls[..|calls| - 1], calls[|calls| - 1];
    StartIsPast(front, limit, key);
    assert front != [] ==> front[|front| - 1].at <= last.at;
    if i < |front| {
      assert front[..i] == calls[..i];
      StartsAreApart(front, limit, key, i);
    } else {
      assert calls[..i] == front;
    }
  }

  lemma {:induction false} StartIsPast(calls: seq<Call>, limit: int, key: string)
    requires Clocked(calls)
    ensures var w := WindowOf(After(calls, limit), key);
      w.startedAt != 0 ==> calls != [] && w.startedAt <= calls[|calls| - 1].at
  {
    if calls != [] {
      StartIsPast(calls[..|calls| - 1], limit, key);
      if |calls| > 1 { assert calls[|calls| - 2].at <= calls[|calls| - 1].at; }
    }
  }

  /** Every call lies in the minute of the window it is counted in, and two windows of a key start at least a minute apart. */
  lemma {:induction false} WindowsAreDisjoint(calls: seq<Call>, limit: int, key: string, i: nat, j: nat)
    requires Clocked(calls) && i < j < |calls| && calls[i].key == calls[j].key == key
    ensures var s, t := Answer(calls[..i], limit, calls[i]).windowStartedAt, Answer(calls[..j], limit, calls[j]).windowStartedAt;
      s <= calls[i].at < s + MINUTE && t <= calls[j].at < t + MINUTE && (t == s || t - s >= MINUTE)
  {
    var upto := calls[..j + 1];
    assert upto[..i] == calls[..i] && upto[..j] == calls[..j] && upto[i] == calls[i] && upto[j] == calls[j];
    StartsAreApart(upto, limit, key, i);
    StartsAreApart(upto, limit, key, j);
    assert WindowOf(After(upto, limit), key).startedAt == Answer(calls[..j], limit, calls[j]).windowStartedAt;
  }

  /** A call is refused only when its window has admitted L calls already; the answer counts the calls its window has admitted. */
  lemma {:induction false} RefusedOnlyWhenFull(calls: seq<Call>, limit: int, next: Call)
    requires limit >= 1 && Clocked(calls + [next])
    ensures var d := Answer(calls, limit, next);
      && (!d.allowed <==> AdmittedInWindow(calls, limit, next.key, d.windowStartedAt) == limit)
      && d.count == AdmittedInWindow(calls + [next], limit, next.key, d.windowStartedAt) && d.limit == limit
  {
    assert (calls + [next])[..|calls|] == calls;
    assert forall i :: 0 <= i < |calls| ==> calls[i] == (calls + [next])[i];
    assert (calls + [next])[|calls|] == next;
    var d := Answer(calls, limit, next);
    assert Clocked(calls);
    assert calls != [] ==> calls[|calls| - 1].at <= next.at;
    WindowHolds(calls, limit, next.key, d.windowStartedAt);
  }

  // ---- the bound is reached ----

  /** One call, L - 1 more at the end of its minute, L in the next nanosecond. */
  function Burst(limit: nat, key: string): seq<Call> {
    seq(2 * limit, i => Call(key, if i == 0 then 1 else if i < limit then MINUTE else MINUTE + 1))
  }

  lemma {:induction false} BurstAdmitted(limit: nat, key: string, n: nat)
    requires limit >= 1 && n <= 2 * limit
    ensures WindowOf(After(Burst(limit, key)[..n], limit), key) ==
      if n == 0 then Window(0, 0) else if n <= limit then Window(1, n) else Window(MINUTE + 1, n - limit)
    ensures Admitted(Burst(limit, key)[..n], limit, key, MINUTE, 2 * MINUTE) == if n == 0 then 0 else n - 1
  {
    if n > 0 {
      BurstAdmitted(limit, key, n - 1);
      var prefix := Burst(limit, key)[..n];
      assert prefix[..n - 1] == Burst(limit, key)[..n - 1];
      assert prefix[n - 1] == Call(key, if n == 1 then 1 else if n <= limit then MINUTE else MINUTE + 1);
    }
  }

  lemma {:induction false} BoundIsReached(limit: nat, key: string)
    requires limit >= 1
    ensures Clocked(Burst(limit, key))
    ensures Admitted(Burst(limit, key), limit, key, 60 * 1_000_000_000, 2 * 60 * 1_000_000_000) == 2 * limit - 1
  {
    BurstAdmitted(limit, key, 2 * limit);
    assert Burst(limit, key)[..2 * limit] == Burst(limit, key);
  }

  /** At the zero time every call opens a new window, so nothing is ever refused: the clock hypothesis is needed. */
  lemma {:induction false} ZeroTimeIsUnlimited(n: nat, limit: int, key: string)
    requires limit >= 1
    ensures Admitted(seq(n, _ => Call(key, 0)), limit, key, 0, MINUTE) == n
    ensures WindowOf(After(seq(n, _ => Call(key, 0)), limit), key).startedAt == 0
  {
    if n > 0 {
      ZeroTimeIsUnlimited(n - 1, limit, key);
      assert seq(n, _ => Call(key, 0))[..n - 1] == seq(n - 1, _ => Call(key, 0));
    }
  }
}
