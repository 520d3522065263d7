// lib/utils/rate-limiter.ts: an in-memory, per-user limit of five
// submissions in a window of one minute. The clock (`Date.now()`) is a
// parameter.
module RateLimiter {
  const RATE_LIMIT_WINDOW: int := 60 * 1000
  const MAX_SUBMISSIONS: nat := 5

  /** Time of the last accepted submission and the number of calls since the window opened. */
  datatype UserRate = UserRate(lastSubmission: int, count: nat)

  /** One call of `isRateLimited(username)` at time `now`: the new table and the verdict. */
  function RateCheck(rates: map<string, UserRate>, username: string, now: int): (map<string, UserRate>, bool) {
    if username !in rates then
      (rates[username := UserRate(now, 1)], false)
    else
      var rate := rates[username];
      if now - rate.lastSubmission < RATE_LIMIT_WINDOW then
        var count := rate.count + 1;
        if count > MAX_SUBMISSIONS then (rates[username := UserRate(rate.lastSubmission, count)], true)
        else (rates[username := UserRate(now, count)], false)
      else
        (rates[username := UserRate(now, 1)], false)
  }

  /** The module-level `userRates` record. */
  class Limiter {
    var userRates: map<string, UserRate>

    constructor()
      ensures userRates == map[]
    {
      userRates := map[];
    }

    method IsRateLimited(username: string, now: int) returns (limited: bool)
      modifies this
      ensures (userRates, limited) == RateCheck(old(userRates), username, now)
    {
      if username !in userRates {
        userRates := userRates[username := UserRate(now, 1)];
        return false;
      }
      var userRate := userRates[username];
      if now - userRate.lastSubmission < RATE_LIMIT_WINDOW {
        userRate := userRate.(count := userRate.count + 1);
        if userRate.count > MAX_SUBMISSIONS {
          userRates := userRates[username := userRate];
          return true;
        }
        userRate := userRate.(lastSubmission := now);
        userRates := userRates[username := userRate];
        return false;
      }
      userRates := userRates[username := UserRate(now, 1)];
      return false;
    }
  }

  // ---------------------------------------------------------------------
  // Properties of one call

  /** A user's first call is never limited and opens a window with one submission. */
  lemma FirstCallAllowed(rates: map<string, UserRate>, username: string, now: int)
    requires username !in rates
    ensures !RateCheck(rates, username, now).1
    ensures RateCheck(rates, username, now).0[username] == UserRate(now, 1)
  {
  }

  /**
   * Inside the window the call is counted, and it is limited exactly when
   * the count now exceeds five; a limited call leaves the window's start
   * where it was, an allowed one moves it to `now`.
   */
  lemma InWindow(rates: map<string, UserRate>, username: string, now: int)
    requires username in rates && now - rates[username].lastSubmission < RATE_LIMIT_WINDOW
    ensures var (next, limited) := RateCheck(rates, username, now);
      && next[username].count == rates[username].count + 1
      && (limited <==> rates[username].count + 1 > MAX_SUBMISSIONS)
      && next[username].lastSubmission == (if limited then rates[username].lastSubmission else now)
  {
  }

  /** A minute or more after the last accepted submission the window starts afresh. */
  lemma WindowExpired(rates: map<string, UserRate>, username: string, now: int)
    requires username in rates && now - rates[username].lastSubmission >= RATE_LIMIT_WINDOW
    ensures !RateCheck(rates, username, now).1
    ensures RateCheck(rates, username, now).0[username] == UserRate(now, 1)
  {
  }

  /** Only the caller's entry changes. */
  lemma OtherUsersUnchanged(rates: map<string, UserRate>, username: string, now: int, other: string)
    requires other != username
    ensures other in RateCheck(rates, username, now).0 <==> other in rates
    ensures other in rates ==> RateCheck(rates, username, now).0[other] == rates[other]
    ensures username in RateCheck(rates, username, now).0
  {
  }

  /** A verdict of "limited" needs an existing entry, a call inside its window, and at least five earlier calls. */
  lemma LimitedNeedsFiveEarlier(rates: map<string, UserRate>, username: string, now: int)
    requires RateCheck(rates, username, now).1
    ensures username in rates
    ensures now - rates[username].lastSubmission < RATE_LIMIT_WINDOW
    ensures rates[username].count >= MAX_SUBMISSIONS
  {
  }

  /** The caller's count only grows by one, or restarts at one. */
  lemma CountGrowsOrResets(rates: map<string, UserRate>, username: string, now: int)
    requires username in rates
    ensures var next := RateCheck(rates, username, now).0;
      next[username].count == rates[username].count + 1 || next[username].count == 1
  {
  }

  // ---------------------------------------------------------------------
  // Properties of a sequence of calls by one user

  /** Calls at the given times, in order; the verdicts in order. */
  function RunCalls(rates: map<string, UserRate>, username: string, times: seq<int>): (map<string, UserRate>, seq<bool>)
    decreases |times|
  {
    if |times| == 0 then (rates, [])
    else
      var (mid, verdicts) := RunCalls(rates, username, times[..|times| - 1]);
      var (next, limited) := RateCheck(mid, username, times[|times| - 1]);
      (next, verdicts + [limited])
  }

  /** Each call comes less than a minute after the one before it. */
  predicate CloseTogether(times: seq<int>) {
    forall k :: 1 <= k < |times| ==> times[k] - times[k - 1] < RATE_LIMIT_WINDOW
  }

  /** Up to five calls in quick succession from a new user are all allowed; the count is the number of calls. */
  lemma {:induction false} FirstFiveAllowed(rates: map<string, UserRate>, username: string, times: seq<int>)
    requires username !in rates
    requires 1 <= |times| <= MAX_SUBMISSIONS
    requires CloseTogether(times)
    ensures var (next, verdicts) := RunCalls(rates, username, times);
      && verdicts == seq(|times|, _ => false)
      && username in next
      && next[username] == UserRate(times[|times| - 1], |times|)
    decreases |times|
  {
    var n := |times|;
    var prefix := times[..n - 1];
    if n == 1 {
      assert prefix == [];
    } else {
      assert CloseTogether(prefix) by {
        forall k | 1 <= k < |prefix| ensures prefix[k] - prefix[k - 1] < RATE_LIMIT_WINDOW {
          assert prefix[k] == times[k] && prefix[k - 1] == times[k - 1];
        }
      }
      FirstFiveAllowed(rates, username, prefix);
      assert prefix[n - 2] == times[n - 2];
    }
  }

  /** The sixth call in quick succession from a new user is the first one limited. */
  lemma SixthCallLimited(rates: map<string, UserRate>, username: string, times: seq<int>)
    requires username !in rates
    requires |times| == MAX_SUBMISSIONS + 1
    requires CloseTogether(times)
    ensures RunCalls(rates, username, times).1 == [false, false, false, false, false, true]
    ensures RunCalls(rates, username, times).0[username] == UserRate(times[4], 6)
  {
    var prefix := times[..5];
    assert CloseTogether(prefix) by {
      forall k | 1 <= k < |prefix| ensures prefix[k] - prefix[k - 1] < RATE_LIMIT_WINDOW {
        assert prefix[k] == times[k] && prefix[k - 1] == times[k - 1];
      }
    }
    FirstFiveAllowed(rates, username, prefix);
  }
}
