/**
 The sliding-window rate limiter for one key: a pruned set of timestamps that must
 decide as if it still had every attempt ever made.
 */
module RateLimiter {

  datatype Attempt = Attempt(time: int, passed: bool)

  /** Attempts, passed or blocked, in the half-open window (low, high]. */
  function AttemptsIn(h: seq<Attempt>, low: int, high: int): nat {
    if h == [] then 0 else
      var last := h[|h| - 1];
      AttemptsIn(h[..|h| - 1], low, high) + if low < last.time <= high then 1 else 0
  }

  function PassedIn(h: seq<Attempt>, low: int, high: int): nat {
    if h == [] then 0 else
      var last := h[|h| - 1];
      PassedIn(h[..|h| - 1], low, high) + if last.passed && low < last.time <= high then 1 else 0
  }

  /** The counts are numbers of attempts: later than `low`, not later than `high`. */
  lemma {:induction false} AttemptsAreCounted(h: seq<Attempt>, low: int, high: int)
    ensures AttemptsIn(h, low, high) == |set k | 0 <= k < |h| && low < h[k].time <= high|
  {
    var all := set k | 0 <= k < |h| && low < h[k].time <= high;
    if h == [] {
      assert all == {};
    } else {
      var n: int, rest := |h| - 1, h[..|h| - 1];
      AttemptsAreCounted(rest, low, high);
      var earlier := set k | 0 <= k < |rest| && low < rest[k].time <= high;
      if low < h[n].time <= high {
        assert all == earlier + {n};
      } else {
        assert all == earlier;
      }
    }
  }

  lemma {:induction false} PassedAreCounted(h: seq<Attempt>, low: int, high: int)
    ensures PassedIn(h, low, high) == |set k | 0 <= k < |h| && h[k].passed && low < h[k].time <= high|
  {
    var all := set k | 0 <= k < |h| && h[k].passed && low < h[k].time <= high;
    if h == [] {
      assert all == {};
    } else {
      var n: int, rest := |h| - 1, h[..|h| - 1];
      PassedAreCounted(rest, low, high);
      var earlier := set k | 0 <= k < |rest| && rest[k].passed && low < rest[k].time <= high;
      if h[n].passed && low < h[n].time <= high {
        assert all == earlier + {n};
      } else {
        assert all == earlier;
      }
    }
  }

  predicate Increasing(h: seq<Attempt>) {
    && (forall k :: 0 <= k < |h| ==> 0 <= h[k].time)
    && (forall j, k :: 0 <= j < k < |h| ==> h[j].time < h[k].time)
  }

  /** Every decision was made on the full history before it. */
  predicate DecidedOnHistory(h: seq<Attempt>, max: int, window: nat) {
    h != [] ==>
      var before, last := h[..|h| - 1], h[|h| - 1];
      DecidedOnHistory(before, max, window) && (last.passed <==> AttemptsIn(before, last.time - window, last.time) < max)
  }

  function TimesAfter(h: seq<Attempt>, low: int): set<int> {
    if h == [] then {} else
      var last := h[|h| - 1];
      TimesAfter(h[..|h| - 1], low) + if low < last.time then {last.time} else {}
  }

  lemma {:induction false} TimesAreBounded(h: seq<Attempt>, low: int, high: int)
    requires forall k :: 0 <= k < |h| ==> h[k].time <= high
    ensures forall t :: t in TimesAfter(h, low) ==> low < t <= high
  {
    if h != [] {
      TimesAreBounded(h[..|h| - 1], low, high);
    }
  }

  /** With increasing clock readings the stored set counts attempts. */
  lemma {:induction false} SetCountsAttempts(h: seq<Attempt>, low: int, high: int)
    requires Increasing(h) && forall k :: 0 <= k < |h| ==> h[k].time <= high
    ensures |TimesAfter(h, low)| == AttemptsIn(h, low, high)
  {
    if h != [] {
      var rest, last := h[..|h| - 1], h[|h| - 1];
      SetCountsAttempts(rest, low, high);
      TimesAreBounded(rest, low, last.time - 1);
    }
  }

  function Pruned(stored: set<int>, low: int): set<int> {
    set t | t in stored && !(0 <= t <= low)
  }

  /** Pruning a set that was pruned before gives what pruning everything would. */
  lemma {:induction false} PruningComposes(h: seq<Attempt>, low: int, low': int)
    requires Increasing(h) && low <= low'
    ensures Pruned(TimesAfter(h, low), low') == TimesAfter(h, low')
  {
    if h != [] {
      PruningComposes(h[..|h| - 1], low, low');
    }
  }

  /** Once every attempt has left the window, the whole set can go. */
  lemma {:induction false} NothingLeft(h: seq<Attempt>, low: int)
    requires forall k :: 0 <= k < |h| ==> h[k].time <= low
    ensures TimesAfter(h, low) == {}
  {
    if h != [] {
      NothingLeft(h[..|h| - 1], low);
    }
  }

  /** The stored set is the part of the history that the last request still saw. */
  ghost predicate Represents(stored: set<int>, expiresAt: int, h: seq<Attempt>, window: nat) {
    if h == [] then stored == {} && expiresAt == 0
    else
      var last := h[|h| - 1].time;
      stored == TimesAfter(h, last - window) && expiresAt == last + window
  }

  /** What the limiter keeps true of its store and the history behind it. */
  ghost predicate Keeps(stored: set<int>, expiresAt: int, h: seq<Attempt>, max: int, window: nat) {
    0 < window && Increasing(h) && DecidedOnHistory(h, max, window) && Represents(stored, expiresAt, h, window)
  }

  lemma LastIsLatest(h: seq<Attempt>)
    requires Increasing(h) && h != []
    ensures forall k :: 0 <= k < |h| ==> h[k].time <= h[|h| - 1].time
  {
  }

  /** Expiry and pruning drop exactly what has left the window. */
  lemma PruningForgetsNothing(stored: set<int>, expiresAt: int, h: seq<Attempt>, window: nat, now: int)
    requires Increasing(h) && Represents(stored, expiresAt, h, window) && (h != [] ==> h[|h| - 1].time < now)
    ensures Pruned(if now >= expiresAt then {} else stored, now - window) == TimesAfter(h, now - window)
  {
    if h != [] {
      LastIsLatest(h);
      PruningComposes(h, h[|h| - 1].time - window, now - window);
      if now >= expiresAt {
        NothingLeft(h, now - window);
      }
    }
  }

  lemma SetCountsWindow(h: seq<Attempt>, window: nat, now: int)
    requires Increasing(h) && (h != [] ==> h[|h| - 1].time < now)
    ensures |TimesAfter(h, now - window)| == AttemptsIn(h, now - window, now)
  {
    if h != [] {
      LastIsLatest(h);
    }
    SetCountsAttempts(h, now - window, now);
  }

  lemma IncreasingExtends(h: seq<Attempt>, a: Attempt)
    requires Increasing(h) && 0 <= a.time && (h != [] ==> h[|h| - 1].time < a.time)
    ensures Increasing(h + [a])
  {
    if h != [] {
      LastIsLatest(h);
    }
  }

  lemma DecidedExtends(h: seq<Attempt>, a: Attempt, max: int, window: nat)
    requires DecidedOnHistory(h, max, window) && (a.passed <==> AttemptsIn(h, a.time - window, a.time) < max)
    ensures DecidedOnHistory(h + [a], max, window)
  {
    assert (h + [a])[..|h|] == h;
  }

  lemma RepresentsExtends(h: seq<Attempt>, a: Attempt, window: nat)
    requires 0 < window
    ensures Represents(TimesAfter(h, a.time - window) + {a.time}, a.time + window, h + [a], window)
  {
    assert (h + [a])[..|h|] == h;
  }

  /** A request that is decided on the count keeps the whole representation. */
  lemma RequestExtends(h: seq<Attempt>, a: Attempt, max: int, window: nat)
    requires Increasing(h) && 0 < window && 0 <= a.time && (h != [] ==> h[|h| - 1].time < a.time)
    requires DecidedOnHistory(h, max, window) && (a.passed <==> AttemptsIn(h, a.time - window, a.time) < max)
    ensures Keeps(TimesAfter(h, a.time - window) + {a.time}, a.time + window, h + [a], max, window)
  {
    IncreasingExtends(h, a);
    DecidedExtends(h, a, max, window);
    RepresentsExtends(h, a, window);
  }

  lemma {:induction false} PassedAreAttempts(h: seq<Attempt>, low: int, high: int, low': int, high': int)
    requires low' <= low && forall k :: 0 <= k < |h| ==> h[k].time <= high'
    ensures PassedIn(h, low, high) <= AttemptsIn(h, low', high')
  {
    if h != [] {
      PassedAreAttempts(h[..|h| - 1], low, high, low', high');
    }
  }

  /** No window of the configured length, wherever it starts, holds more than the limit of passed requests. */
  lemma {:induction false} WindowsRespectLimit(h: seq<Attempt>, max: nat, window: nat, low: int)
    requires Increasing(h) && DecidedOnHistory(h, max, window)
    ensures PassedIn(h, low, low + window) <= max
  {
    if h != [] {
      var rest, last := h[..|h| - 1], h[|h| - 1];
      WindowsRespectLimit(rest, max, window, low);
      if last.passed && low < last.time <= low + window {
        PassedAreAttempts(rest, low, low + window, last.time - window, last.time);
      }
    }
  }

  class RateLimiter {
    const maxRequests: nat
    const window: nat
    /** The sorted set; a member and its score are the same timestamp. */
    var stored: set<int>
    /** When the store drops the whole key. */
    var expiresAt: int
    ghost var history: seq<Attempt>

    constructor (maxRequests: nat, window: nat)
      requires 0 < window
      ensures Valid() && history == []
      ensures this.maxRequests == maxRequests && this.window == window
    {
      this.maxRequests, this.window := maxRequests, window;
      stored, expiresAt, history := {}, 0, [];
    }

    ghost predicate Valid()
      reads this
    {
      Keeps(stored, expiresAt, history, maxRequests, window)
    }

    /** Drop what has left the window, by expiry or one by one, and count what is left. */
    method PruneAndCount(now: int) returns (count: nat)
      requires Valid() && 0 <= now && (history != [] ==> history[|history| - 1].time < now)
      modifies this`stored
      ensures stored == TimesAfter(history, now - window)
      ensures count == AttemptsIn(history, now - window, now)
    {
      PruningForgetsNothing(stored, expiresAt, history, window, now);
      SetCountsWindow(history, window, now);
      if now >= expiresAt {
        stored := {};
      }
      stored := Pruned(stored, now - window);
      count := |stored|;
    }

    /** One pipeline run: prune, count, add, refresh the expiry; then decide on the count. */
    method Request(now: int) returns (passed: bool, remaining: nat)
      requires Valid() && 0 <= now && (history != [] ==> history[|history| - 1].time < now)
      modifies this
      ensures Valid()
      ensures history == old(history) + [Attempt(now, passed)]
      ensures passed <==> AttemptsIn(old(history), now - window, now) < maxRequests
      ensures passed <==> 0 < remaining
      ensures passed ==> remaining + AttemptsIn(old(history), now - window, now) == maxRequests
    {
      ghost var before := history;
      var count := PruneAndCount(now);
      remaining := if maxRequests <= count then 0 else maxRequests - count;
      passed := count < maxRequests;
      RequestKeeps(before, stored, Attempt(now, passed), count, maxRequests, window);
      stored, expiresAt, history := stored + {now}, now + window, before + [Attempt(now, passed)];
    }
  }

  lemma RequestKeeps(h: seq<Attempt>, pruned: set<int>, a: Attempt, count: nat, max: int, window: nat)
    requires Increasing(h) && DecidedOnHistory(h, max, window) && 0 < window && 0 <= a.time
    requires h != [] ==> h[|h| - 1].time < a.time
    requires pruned == TimesAfter(h, a.time - window) && count == AttemptsIn(h, a.time - window, a.time)
    requires a.passed <==> count < max
    ensures Keeps(pruned + {a.time}, a.time + window, h + [a], max, window)
  {
    RequestExtends(h, a, max, window);
  }
}
