/** The flusher that trades latency against the number of system calls: AdaptiveIO. */
module AdaptiveFlushing {
  import opened SteadyClock

  datatype Config = Config(threshold: int, windowMs: int)

  datatype State = State(calls: nat, lastFlush: Time, lastBurstFlush: Time)

  /** `duration_cast<milliseconds>(later - earlier)` */
  function Elapsed(earlier: Time, later: Time): nat
    requires earlier <= later
  {
    (later - earlier) / TICKS_PER_MS
  }

  /** The steady clock has not gone back. */
  predicate Before(s: State, now: Time) {
    s.lastFlush <= now && s.lastBurstFlush <= now
  }

  /** A call that finds the window over opens the next one. */
  predicate Opens(c: Config, s: State, now: Time)
    requires Before(s, now)
  {
    Elapsed(s.lastFlush, now) >= c.windowMs
  }

  predicate Flushes(c: Config, s: State, now: Time)
    requires Before(s, now)
  {
    || (if Opens(c, s, now) then 0 else s.calls + 1) < c.threshold
    || Elapsed(s.lastBurstFlush, now) >= c.windowMs
  }

  function Step(c: Config, s: State, now: Time): State
    requires Before(s, now)
  {
    var calls := if Opens(c, s, now) then 0 else s.calls + 1;
    State(calls,
          if Opens(c, s, now) then now else s.lastFlush,
          if calls >= c.threshold && Flushes(c, s, now) then now else s.lastBurstFlush)
  }

  class AdaptiveIO {
    const burstThreshold: int
    const windowMs: int
    var callsInBurst: nat
    var lastFlush: Time
    var lastBurstFlush: Time

    function Settings(): Config {
      Config(burstThreshold, windowMs)
    }

    function View(): State
      reads this
    {
      State(callsInBurst, lastFlush, lastBurstFlush)
    }

    /** The clock is read once for each time stamp. */
    constructor (burstThreshold: int, windowMs: int, now: Time, later: Time)
      requires now <= later
      ensures Settings() == Config(burstThreshold, windowMs) && View() == State(0, now, later)
    {
      this.burstThreshold := burstThreshold;
      this.windowMs := windowMs;
      callsInBurst := 0;
      lastFlush := now;
      lastBurstFlush := later;
    }

    /** `flush` says whether the callback is called. */
    method Apply(now: Time) returns (flush: bool)
      requires Before(View(), now)
      modifies this
      ensures flush == Flushes(Settings(), old(View()), now)
      ensures View() == Step(Settings(), old(View()), now)
    {
      flush := false;
      var elapsed := (now - lastFlush) / TICKS_PER_MS;
      if elapsed < windowMs {
        callsInBurst := callsInBurst + 1;
      } else {
        callsInBurst := 0;
        lastFlush := now;
      }
      if callsInBurst < burstThreshold {
        flush := true;
      } else {
        var sinceBurstFlush := (now - lastBurstFlush) / TICKS_PER_MS;
        if sinceBurstFlush >= windowMs {
          lastBurstFlush := now;
          flush := true;
        }
      }
    }
  }

  // ---------------------------------------------------------------------------
  // Runs
  // ---------------------------------------------------------------------------

  /** The calls come at times that do not go back, none of them before the state `s`. */
  predicate Monotone(s: State, times: seq<Time>) {
    && (forall i :: 0 <= i < |times| ==> Before(s, times[i]))
    && (forall i, j :: 0 <= i < j < |times| ==> times[i] <= times[j])
  }

  /** The state after the calls. */
  ghost function After(c: Config, s: State, times: seq<Time>): (r: State)
    requires Monotone(s, times)
    ensures times == [] ==> r == s
    ensures times != [] ==> Before(r, times[|times| - 1])
  {
    if times == [] then s
    else
      var n := |times| - 1;
      Step(c, After(c, s, times[..n]), times[n])
  }

  ghost predicate FlushesAt(c: Config, s: State, times: seq<Time>, k: nat)
    requires Monotone(s, times) && k < |times|
  {
    Flushes(c, After(c, s, times[..k]), times[k])
  }

  ghost predicate OpensAt(c: Config, s: State, times: seq<Time>, k: nat)
    requires Monotone(s, times) && k < |times|
  {
    Opens(c, After(c, s, times[..k]), times[k])
  }

  /** How many of the calls flush. */
  ghost function Flushed(c: Config, s: State, times: seq<Time>): nat
    requires Monotone(s, times)
  {
    if times == [] then 0
    else
      var n := |times| - 1;
      Flushed(c, s, times[..n]) + if FlushesAt(c, s, times, n) then 1 else 0
  }

  /** How many of the calls open a window. */
  ghost function Opened(c: Config, s: State, times: seq<Time>): nat
    requires Monotone(s, times)
  {
    if times == [] then 0
    else
      var n := |times| - 1;
      Opened(c, s, times[..n]) + if OpensAt(c, s, times, n) then 1 else 0
  }

  // ---------------------------------------------------------------------------
  // The flush rate
  // ---------------------------------------------------------------------------

  function PerWindow(c: Config): nat {
    if c.threshold > 0 then c.threshold + 1 else 1
  }

  /** What may still be flushed in the window of `s`: the calls below the threshold, and one in the burst. */
  function Remaining(c: Config, s: State): nat {
    (if s.calls + 1 < c.threshold then c.threshold - 1 - s.calls else 0)
    + (if s.lastBurstFlush >= s.lastFlush then 0 else 1)
  }

  lemma StepSpends(c: Config, s: State, now: Time)
    requires Before(s, now) && c.windowMs > 0
    ensures (if Flushes(c, s, now) then 1 else 0) + Remaining(c, Step(c, s, now))
            <= if Opens(c, s, now) then PerWindow(c) else Remaining(c, s)
  {
  }

  lemma RemainingIsBounded(c: Config, s: State)
    ensures Remaining(c, s) <= PerWindow(c)
  {
  }

  lemma OneMore(p: nat, r: nat)
    ensures p * (r + 1) == p * r + p
  {
  }

  lemma {:induction false} RunSpends(c: Config, s: State, times: seq<Time>)
    requires Monotone(s, times) && c.windowMs > 0
    ensures Flushed(c, s, times) + Remaining(c, After(c, s, times))
            <= Remaining(c, s) + PerWindow(c) * Opened(c, s, times)
    decreases |times|
  {
    hide Step, Flushes, Opens, Remaining, PerWindow;
    if times == [] {
    } else {
      var n := |times| - 1;
      RunSpends(c, s, times[..n]);
      StepSpends(c, After(c, s, times[..n]), times[n]);
      OneMore(PerWindow(c), Opened(c, s, times[..n]));
    }
  }

  /** One window more, and its length more. */
  lemma OneWindowMore(r: int, w: int, ticks: int, more: int)
    requires r * w * TICKS_PER_MS <= ticks && w * TICKS_PER_MS <= more
    ensures (r + 1) * w * TICKS_PER_MS <= ticks + more
  {
    assert (r + 1) * w == r * w + w;
  }

  /** Only a call that opens a window moves `lastFlush`, and by the length of a window. */
  lemma StepOfWindow(c: Config, s: State, now: Time)
    requires Before(s, now)
    ensures Opens(c, s, now) ==> Step(c, s, now).lastFlush == now && c.windowMs * TICKS_PER_MS <= now - s.lastFlush
    ensures !Opens(c, s, now) ==> Step(c, s, now).lastFlush == s.lastFlush
  {
  }

  /** Windows are at least `windowMs` apart. */
  lemma {:induction false} WindowsAreLong(c: Config, s: State, times: seq<Time>)
    requires Monotone(s, times) && c.windowMs > 0
    ensures var r, last := Opened(c, s, times), After(c, s, times).lastFlush;
      && r * c.windowMs * TICKS_PER_MS <= last - s.lastFlush
      && (r > 0 ==> (r - 1) * c.windowMs * TICKS_PER_MS <= last - times[0])
    decreases |times|
  {
    if times == [] {
    } else {
      var n := |times| - 1;
      WindowsAreLong(c, s, times[..n]);
      var before, r := After(c, s, times[..n]), Opened(c, s, times[..n]);
      StepOfWindow(c, before, times[n]);
      hide Step, Opens;
      if OpensAt(c, s, times, n) {
        var gap := times[n] - before.lastFlush;
        OneWindowMore(r, c.windowMs, before.lastFlush - s.lastFlush, gap);
        if r > 0 {
          OneWindowMore(r - 1, c.windowMs, before.lastFlush - times[0], gap);
        }
      }
    }
  }

  lemma FitsInto(x: int, w: int, q: int, r: int)
    requires w > 0 && r * w <= x < q * w + w
    ensures r <= q
  {
    assert (r - q - 1) * w == r * w - q * w - w;
    assert r > q ==> (r - q - 1) * w >= 0;
  }

  /** So many windows fit into a time. */
  lemma Fits(r: nat, w: int, ticks: nat)
    requires w > 0 && r * w * TICKS_PER_MS <= ticks
    ensures r <= ticks / TICKS_PER_MS / w
  {
    var product, ms := r * w, ticks / TICKS_PER_MS;
    assert product <= ms;
    FitsInto(ms, w, ms / w, r);
  }

  lemma MoreWindows(p: nat, r: nat, q: nat)
    requires r <= q
    ensures p + p * r <= p * (q + 1)
  {
    assert p * (q - r) >= 0;
  }

  /**
   * A call, in particular one that opens a window, and the calls after it that open none flush at most
   * `threshold + 1` times.
   */
  lemma AtMostPerWindow(c: Config, s: State, first: Time, others: seq<Time>)
    requires Before(s, first) && c.windowMs > 0
    requires Monotone(Step(c, s, first), others) && Opened(c, Step(c, s, first), others) == 0
    ensures (if Flushes(c, s, first) then 1 else 0) + Flushed(c, Step(c, s, first), others) <= PerWindow(c)
  {
    StepSpends(c, s, first);
    RunSpends(c, Step(c, s, first), others);
    RemainingIsBounded(c, s);
  }

  /** By `T` ms after the construction at most `(threshold + 1) * (T / windowMs + 1)` calls have flushed. */
  lemma FlushRateFromStart(c: Config, now: Time, later: Time, times: seq<Time>)
    requires now <= later && c.windowMs > 0 && times != []
    requires Monotone(State(0, now, later), times)
    ensures Flushed(c, State(0, now, later), times)
            <= PerWindow(c) * (Elapsed(now, times[|times| - 1]) / c.windowMs + 1)
  {
    hide Flushed, Opened, After, Remaining, PerWindow;
    var s := State(0, now, later);
    RunSpends(c, s, times);
    RemainingIsBounded(c, s);
    WindowsAreLong(c, s, times);
    var r := Opened(c, s, times);
    Fits(r, c.windowMs, times[|times| - 1] - now);
    MoreWindows(PerWindow(c), r, Elapsed(now, times[|times| - 1]) / c.windowMs);
  }

  /**
   * In any stretch of calls, whatever came before it, over `D` ms at most
   * `(threshold + 1) * (D / windowMs + 2)` flush.
   */
  lemma FlushRateAnywhere(c: Config, s: State, times: seq<Time>)
    requires c.windowMs > 0 && times != [] && Monotone(s, times)
    ensures Flushed(c, s, times)
            <= PerWindow(c) * (Elapsed(times[0], times[|times| - 1]) / c.windowMs + 2)
  {
    RunSpends(c, s, times);
    WindowsAreLong(c, s, times);
    var r := Opened(c, s, times);
    var q := Elapsed(times[0], times[|times| - 1]) / c.windowMs;
    if r > 0 {
      Fits(r - 1, c.windowMs, times[|times| - 1] - times[0]);
    }
    assert q >= 0 by {
      Fits(0, c.windowMs, times[|times| - 1] - times[0]);
    }
    MoreWindows(PerWindow(c), r, q + 1);
  }

  // ---------------------------------------------------------------------------
  // Staleness
  // ---------------------------------------------------------------------------

  lemma {:induction false} BurstFlushIsAFlush(c: Config, s: State, times: seq<Time>)
    requires Monotone(s, times)
    ensures var last := After(c, s, times).lastBurstFlush;
      last == s.lastBurstFlush || exists j :: 0 <= j < |times| && FlushesAt(c, s, times, j) && times[j] == last
    decreases |times|
  {
    if times == [] {
    } else {
      var n := |times| - 1;
      BurstFlushIsAFlush(c, s, times[..n]);
      var before, last := After(c, s, times[..n]), After(c, s, times).lastBurstFlush;
      if last == before.lastBurstFlush {
        if last != s.lastBurstFlush {
          var j :| 0 <= j < n && FlushesAt(c, s, times[..n], j) && times[..n][j] == last;
          assert times[..n][..j] == times[..j];
          assert FlushesAt(c, s, times, j);
        }
      } else {
        assert FlushesAt(c, s, times, n);
      }
    }
  }

  /** A call that does not flush comes less than `windowMs` after a flush or after the construction. */
  lemma NeverStale(c: Config, now: Time, later: Time, times: seq<Time>, k: nat)
    requires now <= later && Monotone(State(0, now, later), times) && k < |times|
    requires !FlushesAt(c, State(0, now, later), times, k)
    ensures || Elapsed(later, times[k]) < c.windowMs
            || exists j :: 0 <= j < k && FlushesAt(c, State(0, now, later), times, j) &&
                           Elapsed(times[j], times[k]) < c.windowMs
  {
    var s := State(0, now, later);
    BurstFlushIsAFlush(c, s, times[..k]);
    var last := After(c, s, times[..k]).lastBurstFlush;
    if last != later {
      var j :| 0 <= j < k && FlushesAt(c, s, times[..k], j) && times[..k][j] == last;
      assert times[..k][..j] == times[..j];
      assert FlushesAt(c, s, times, j);
    }
  }

  /** A call that comes `windowMs` or more after the one before it flushes at once. */
  lemma QuietCallFlushes(c: Config, s: State, times: seq<Time>, k: nat)
    requires Monotone(s, times) && 0 < k < |times|
    requires Elapsed(times[k - 1], times[k]) >= c.windowMs
    ensures FlushesAt(c, s, times, k)
  {
    var before := After(c, s, times[..k]);
    assert Before(before, times[..k][k - 1]);
  }

  // ---------------------------------------------------------------------------
  // Which calls flush, by their position
  // ---------------------------------------------------------------------------

  /** None of the calls from `i` up to but not including `k` opens a window. */
  ghost predicate NoneOpens(c: Config, s: State, times: seq<Time>, i: nat, k: nat)
    requires Monotone(s, times) && k <= |times|
  {
    forall j :: i <= j < k ==> !OpensAt(c, s, times, j)
  }

  /** What one more call does, in terms of what is said about it. */
  lemma AfterOneMore(c: Config, s: State, times: seq<Time>, k: nat)
    requires Monotone(s, times) && k < |times|
    ensures Before(After(c, s, times[..k]), times[k])
    ensures OpensAt(c, s, times, k) <==> Elapsed(After(c, s, times[..k]).lastFlush, times[k]) >= c.windowMs
    ensures var before, after := After(c, s, times[..k]), After(c, s, times[..k + 1]);
      && after.lastFlush == (if OpensAt(c, s, times, k) then times[k] else before.lastFlush)
      && after.calls == (if OpensAt(c, s, times, k) then 0 else before.calls + 1)
      && after.lastBurstFlush ==
         (if after.calls >= c.threshold && FlushesAt(c, s, times, k) then times[k] else before.lastBurstFlush)
      && (FlushesAt(c, s, times, k) <==>
          after.calls < c.threshold || Elapsed(before.lastBurstFlush, times[k]) >= c.windowMs)
  {
    assert times[..k + 1][..k] == times[..k];
  }

  /** Since call `i` opened a window, the calls have been counted. */
  lemma {:induction false} SinceOpening(c: Config, s: State, times: seq<Time>, i: nat, k: nat)
    requires Monotone(s, times) && i < k <= |times|
    requires OpensAt(c, s, times, i) && NoneOpens(c, s, times, i + 1, k)
    ensures var t := After(c, s, times[..k]); t.lastFlush == times[i] && t.calls == k - 1 - i
    decreases k
  {
    AfterOneMore(c, s, times, k - 1);
    hide After, OpensAt, Elapsed;
    if i == k - 1 {
    } else {
      assert !OpensAt(c, s, times, k - 1);
      SinceOpening(c, s, times, i, k - 1);
    }
  }

  lemma {:induction false} SinceStart(c: Config, s: State, times: seq<Time>, k: nat)
    requires Monotone(s, times) && k <= |times| && NoneOpens(c, s, times, 0, k)
    ensures var t := After(c, s, times[..k]); t.lastFlush == s.lastFlush && t.calls == s.calls + k
    decreases k
  {
    if k == 0 {
    } else {
      AfterOneMore(c, s, times, k - 1);
      hide After, OpensAt, Elapsed;
      assert !OpensAt(c, s, times, k - 1);
      SinceStart(c, s, times, k - 1);
    }
  }

  /** A call opens a window if and only if the last one, or the construction, is a window's length ago. */
  lemma WindowOpens(c: Config, s: State, times: seq<Time>, i: nat, k: nat)
    requires Monotone(s, times) && k < |times|
    ensures i < k && OpensAt(c, s, times, i) && NoneOpens(c, s, times, i + 1, k) ==>
              (OpensAt(c, s, times, k) <==> Elapsed(times[i], times[k]) >= c.windowMs)
    ensures NoneOpens(c, s, times, 0, k) ==>
              (OpensAt(c, s, times, k) <==> Elapsed(s.lastFlush, times[k]) >= c.windowMs)
  {
    AfterOneMore(c, s, times, k);
    hide After, Step, Elapsed;
    if i < k && OpensAt(c, s, times, i) && NoneOpens(c, s, times, i + 1, k) {
      SinceOpening(c, s, times, i, k);
    }
    if NoneOpens(c, s, times, 0, k) {
      SinceStart(c, s, times, k);
    }
  }

  /** Fewer than `threshold` calls after the one that opened the window, or after the start. */
  ghost predicate Early(c: Config, s: State, times: seq<Time>, k: nat)
    requires Monotone(s, times) && k < |times|
  {
    || (NoneOpens(c, s, times, 0, k + 1) && s.calls + k + 1 < c.threshold)
    || exists i: nat :: i <= k && OpensAt(c, s, times, i) && NoneOpens(c, s, times, i + 1, k + 1) && k - i < c.threshold
  }

  lemma {:induction false} LastOpening(c: Config, s: State, times: seq<Time>, k: nat) returns (i: nat)
    requires Monotone(s, times) && k <= |times| && !NoneOpens(c, s, times, 0, k)
    ensures i < k && OpensAt(c, s, times, i) && NoneOpens(c, s, times, i + 1, k)
    decreases k
  {
    if OpensAt(c, s, times, k - 1) {
      i := k - 1;
    } else {
      i := LastOpening(c, s, times, k - 1);
    }
  }

  /** The early calls are those that the counter does not take for a burst. */
  lemma EarlyIsCounted(c: Config, s: State, times: seq<Time>, k: nat)
    requires Monotone(s, times) && k < |times|
    ensures Early(c, s, times, k) <==> After(c, s, times[..k + 1]).calls < c.threshold
  {
    hide After, OpensAt;
    if NoneOpens(c, s, times, 0, k + 1) {
      SinceStart(c, s, times, k + 1);
    } else {
      var i := LastOpening(c, s, times, k + 1);
      SinceOpening(c, s, times, i, k + 1);
      if Early(c, s, times, k) {
        var j: nat :| j <= k && OpensAt(c, s, times, j) && NoneOpens(c, s, times, j + 1, k + 1) && k - j < c.threshold;
        SinceOpening(c, s, times, j, k + 1);
      }
    }
  }

  /** A flush in the middle of a burst. */
  ghost predicate BurstFlushAt(c: Config, s: State, times: seq<Time>, k: nat)
    requires Monotone(s, times) && k < |times|
  {
    FlushesAt(c, s, times, k) && !Early(c, s, times, k)
  }

  /** At call `k` a window's length has passed since the start and since every burst flush. */
  ghost predicate BurstIsDue(c: Config, s: State, times: seq<Time>, k: nat)
    requires Monotone(s, times) && k < |times|
  {
    && Elapsed(s.lastBurstFlush, times[k]) >= c.windowMs
    && forall b :: 0 <= b < k && BurstFlushAt(c, s, times, b) ==> Elapsed(times[b], times[k]) >= c.windowMs
  }

  lemma BurstFlushIsRemembered(c: Config, s: State, times: seq<Time>, k: nat)
    requires Monotone(s, times) && k < |times|
    ensures After(c, s, times[..k + 1]).lastBurstFlush ==
            if BurstFlushAt(c, s, times, k) then times[k] else After(c, s, times[..k]).lastBurstFlush
    ensures After(c, s, times[..k]).lastBurstFlush <= times[k]
  {
    AfterOneMore(c, s, times, k);
    EarlyIsCounted(c, s, times, k);
    hide Early, After, FlushesAt, OpensAt, Elapsed;
  }

  /** `last` is the time of the last burst flush among the first `k` calls, or else of the start. */
  ghost predicate IsLastBurstFlush(c: Config, s: State, times: seq<Time>, k: nat, last: Time)
    requires Monotone(s, times) && k <= |times|
  {
    && s.lastBurstFlush <= last
    && (forall b :: 0 <= b < k && BurstFlushAt(c, s, times, b) ==> times[b] <= last)
    && (last == s.lastBurstFlush || exists b :: 0 <= b < k && BurstFlushAt(c, s, times, b) && times[b] == last)
  }

  lemma OneMoreBurstFlush(c: Config, s: State, times: seq<Time>, k: nat, last: Time)
    requires Monotone(s, times) && k < |times| && IsLastBurstFlush(c, s, times, k, last) && last <= times[k]
    ensures IsLastBurstFlush(c, s, times, k + 1, if BurstFlushAt(c, s, times, k) then times[k] else last)
  {
    hide Monotone, BurstFlushAt;
    if BurstFlushAt(c, s, times, k) {
      assert IsLastBurstFlush(c, s, times, k + 1, times[k]);
    } else if last != s.lastBurstFlush {
      var b :| 0 <= b < k && BurstFlushAt(c, s, times, b) && times[b] == last;
      assert b < k + 1;
    }
  }

  lemma MonotoneFront(s: State, times: seq<Time>, k: nat)
    requires Monotone(s, times) && k <= |times|
    ensures Monotone(s, times[..k])
  {
  }

  lemma NoBurstFlushYet(c: Config, s: State, times: seq<Time>)
    requires Monotone(s, times)
    ensures IsLastBurstFlush(c, s, times, 0, After(c, s, times[..0]).lastBurstFlush)
  {
    assert times[..0] == [];
  }

  /** The state remembers the last burst flush. */
  lemma {:induction false} SinceBurstFlush(c: Config, s: State, times: seq<Time>, k: nat)
    requires Monotone(s, times) && k <= |times|
    ensures IsLastBurstFlush(c, s, times, k, After(c, s, times[..k]).lastBurstFlush)
    decreases k
  {
    MonotoneFront(s, times, k);
    hide BurstFlushAt, After, IsLastBurstFlush, Monotone;
    if k == 0 {
      NoBurstFlushYet(c, s, times);
    } else {
      MonotoneFront(s, times, k - 1);
      SinceBurstFlush(c, s, times, k - 1);
      BurstFlushIsRemembered(c, s, times, k - 1);
      OneMoreBurstFlush(c, s, times, k - 1, After(c, s, times[..k - 1]).lastBurstFlush);
    }
  }

  /**
   * The decision at every call, by its position: an early call flushes at once, which is the low latency; a
   * call from the threshold on flushes if and only if a window's length has passed since the last burst flush
   * and the start.
   */
  lemma FlushDecision(c: Config, s: State, times: seq<Time>, k: nat)
    requires Monotone(s, times) && k < |times|
    ensures FlushesAt(c, s, times, k) <==> Early(c, s, times, k) || BurstIsDue(c, s, times, k)
  {
    SinceBurstFlush(c, s, times, k);
    AfterOneMore(c, s, times, k);
    EarlyIsCounted(c, s, times, k);
    hide Early, BurstFlushAt, After, FlushesAt, OpensAt;
  }

  /** A call that opens a window, and the `threshold - 1` calls after it, flush. */
  lemma OpeningCallsFlush(c: Config, s: State, times: seq<Time>, i: nat, k: nat)
    requires Monotone(s, times) && i <= k < |times|
    requires OpensAt(c, s, times, i) && NoneOpens(c, s, times, i + 1, k + 1) && k - i < c.threshold
    ensures FlushesAt(c, s, times, k)
  {
    FlushDecision(c, s, times, k);
  }

  /** So do the first `threshold - 1` calls after the construction, unless a window opens before. */
  lemma FirstCallsFlush(c: Config, now: Time, later: Time, times: seq<Time>, k: nat)
    requires now <= later && Monotone(State(0, now, later), times) && k < |times|
    requires NoneOpens(c, State(0, now, later), times, 0, k + 1) && k + 1 < c.threshold
    ensures FlushesAt(c, State(0, now, later), times, k)
  {
    FlushDecision(c, State(0, now, later), times, k);
  }
}
