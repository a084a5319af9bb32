/**
  Properties of the SmokeAlert timer over single handlers and over whole
  sequences of events: the handler laws (stop is idempotent, toggling twice is
  the identity), the countdown invariant, the closed form of a run of ticks
  (one alert per `interval` ticks), and what happens once the interval is
  edited to a non-positive value while the timer runs.
 */
module SmokeAlertProofs {
  import opened SmokeAlert

  /** A running timer whose counter lies between 1 and the interval. */
  ghost predicate Steady(a: App) {
    a.running ==> 1 <= a.remaining <= a.interval
  }

  /** No event in the sequence edits the interval. */
  ghost predicate NoEdits(events: seq<Event>) {
    forall i :: 0 <= i < |events| ==> !events[i].IntervalEdited?
  }

  // ---------------------------------------------------------------------------
  // Single handlers

  /** Stopping twice is stopping once. */
  lemma StopIdempotent(a: App)
    ensures Stop(Stop(a)) == Stop(a)
  {
  }

  /** Stop undoes an accepted start, except that the counter keeps the loaded interval. */
  lemma StopUndoesStart(a: App)
    requires Consistent(a) && !a.running && a.interval > 0
    ensures Stop(Start(a).next) == a.(remaining := a.interval)
  {
  }

  /** Toggling always-on-top twice gives back the state, caption included. */
  lemma ToggleTwiceIsIdentity(a: App)
    requires Consistent(a)
    ensures ToggleTopmost(ToggleTopmost(a)) == a
  {
  }

  /**
    Every handler keeps the countdown invariant, with one exception: editing the
    interval, while the timer runs, to a value below the current count.
   */
  lemma StepKeepsSteady(a: App, e: Event)
    requires Steady(a)
    ensures Steady(Handle(a, e).next)
            <==> !(e.IntervalEdited? && a.running && e.value < a.remaining)
  {
  }

  /**
    The label is refreshed before the reload: after the alert tick of a running
    timer it shows 0 while the counter already holds the next interval, so the
    label is not a function of the running flag and the counter alone.
   */
  lemma LabelLagsReloadOnAlert(a: App)
    requires a.running && a.remaining == 1 && a.interval > 0
    ensures Tick(a).alert && Tick(a).next.shown == Seconds(0)
    ensures Tick(a).next.shown != LabelFor(Tick(a).next.running, Tick(a).next.remaining)
  {
  }

  // ---------------------------------------------------------------------------
  // Sequences of events

  /** The first element and the rest of a concatenation whose left part is non-empty. */
  lemma ConsAppend(xs: seq<Event>, ys: seq<Event>)
    requires xs != []
    ensures (xs + ys)[0] == xs[0] && (xs + ys)[1..] == xs[1..] + ys
  {
  }

  /** Events run back to back end in the state their concatenation ends in. */
  lemma {:induction false} RunAppendFinal(a: App, xs: seq<Event>, ys: seq<Event>)
    ensures Run(a, xs + ys).final == Run(Run(a, xs).final, ys).final
    decreases |xs|
  {
    if xs == [] {
      assert xs + ys == ys;
    } else {
      ConsAppend(xs, ys);
      RunAppendFinal(Handle(a, xs[0]).next, xs[1..], ys);
    }
  }

  /** Alerts of events run back to back add up to those of their concatenation. */
  lemma {:induction false} RunAppendAlerts(a: App, xs: seq<Event>, ys: seq<Event>)
    ensures Run(a, xs + ys).alerts == Run(a, xs).alerts + Run(Run(a, xs).final, ys).alerts
    decreases |xs|
  {
    if xs == [] {
      assert xs + ys == ys;
    } else {
      ConsAppend(xs, ys);
      RunAppendAlerts(Handle(a, xs[0]).next, xs[1..], ys);
    }
  }

  /** Notices of events run back to back concatenate to those of their concatenation. */
  lemma {:induction false} RunAppendNotices(a: App, xs: seq<Event>, ys: seq<Event>)
    ensures Run(a, xs + ys).notices == Run(a, xs).notices + Run(Run(a, xs).final, ys).notices
    decreases |xs|
  {
    if xs == [] {
      assert xs + ys == ys;
    } else {
      ConsAppend(xs, ys);
      RunAppendNotices(Handle(a, xs[0]).next, xs[1..], ys);
    }
  }

  /** Running two sequences back to back is running their concatenation. */
  lemma RunAppend(a: App, xs: seq<Event>, ys: seq<Event>)
    ensures var first := Run(a, xs);
            var second := Run(first.final, ys);
            Run(a, xs + ys)
              == Trace(second.final, first.alerts + second.alerts, first.notices + second.notices)
  {
    RunAppendFinal(a, xs, ys);
    RunAppendAlerts(a, xs, ys);
    RunAppendNotices(a, xs, ys);
  }

  /** With the interval left alone, the countdown invariant holds after any events. */
  lemma {:induction false} RunKeepsSteady(a: App, events: seq<Event>)
    requires Steady(a) && NoEdits(events)
    ensures Steady(Run(a, events).final)
    decreases |events|
  {
    if events != [] {
      StepKeepsSteady(a, events[0]);
      assert NoEdits(events[1..]) by {
        forall i | 0 <= i < |events[1..]|
          ensures !events[1..][i].IntervalEdited?
        {
          assert events[1..][i] == events[i + 1];
        }
      }
      RunKeepsSteady(Handle(a, events[0]).next, events[1..]);
    }
  }

  /** A stopped timer ignores ticks entirely. */
  lemma {:induction false} StoppedIgnoresTicks(a: App, k: nat)
    requires !a.running
    ensures Run(a, TickRun(k)) == Trace(a, 0, [])
  {
    if k > 0 {
      assert TickRun(k)[1..] == TickRun(k - 1);
      StoppedIgnoresTicks(a, k - 1);
    }
  }

  /** After stop, no number of ticks fires an alert or changes anything. */
  lemma StopSilencesTicks(a: App, k: nat)
    ensures Run(a, [StopPressed] + TickRun(k)) == Trace(Stop(a), 0, [])
  {
    RunAppend(a, [StopPressed], TickRun(k));
    StoppedIgnoresTicks(Stop(a), k);
  }

  // ---------------------------------------------------------------------------
  // Counting alerts

  /** A positive multiple of a positive number is at least that number. */
  lemma MultipleAtLeast(c: int, m: int)
    requires c >= 1 && m > 0
    ensures c * m >= m
  {
    assert c * m == (c - 1) * m + m;
    assert (c - 1) * m >= 0;
  }

  /** Euclidean division is determined by a quotient and a remainder in range. */
  lemma DivModUnique(x: int, m: int, q: int, r: int)
    requires 0 < m && 0 <= r < m && x == q * m + r
    ensures x / m == q && x % m == r
  {
    var q', r' := x / m, x % m;
    assert x == q' * m + r';
    assert (q - q') * m == r' - r;
    if q < q' {
      MultipleAtLeast(q' - q, m);
    } else if q > q' {
      MultipleAtLeast(q - q', m);
    }
  }

  /**
    Closed form of `k` ticks from a steady running state. Count the ticks
    already spent since the last reload plus the `k` new ones, and write that
    total as `q` whole intervals and `s` ticks over. Then the ticks fire `q`
    alerts and leave `interval - s` on the counter.
   */
  lemma {:induction false} CountdownClosedForm(a: App, k: nat, q: int, s: int)
    requires a.running && 1 <= a.remaining <= a.interval
    requires 0 <= s < a.interval && a.interval - a.remaining + k == q * a.interval + s
    ensures Run(a, TickRun(k)).alerts == q
    ensures Run(a, TickRun(k)).final.remaining == a.interval - s
    ensures Run(a, TickRun(k)).final.running && Run(a, TickRun(k)).final.interval == a.interval
    ensures Run(a, TickRun(k)).notices == []
    decreases k
  {
    var m, d := a.interval, a.interval - a.remaining;
    if k == 0 {
      DivModUnique(d, m, q, s);
      DivModUnique(d, m, 0, d);
    } else {
      assert TickRun(k)[1..] == TickRun(k - 1);
      var o := Tick(a);
      var t, rest := Run(a, TickRun(k)), Run(o.next, TickRun(k - 1));
      assert t == Trace(rest.final, rest.alerts + (if o.alert then 1 else 0), rest.notices);
      if o.alert {
        // the alert tick completes an interval; the counter starts a fresh one
        assert k - 1 == (q - 1) * m + s;
        if q < 1 {
          MultipleAtLeast(1 - q, m);
        }
        CountdownClosedForm(o.next, k - 1, q - 1, s);
      } else {
        CountdownClosedForm(o.next, k - 1, q, s);
      }
    }
  }

  /** Any `interval` consecutive ticks of a steady running timer fire exactly one alert. */
  lemma OneAlertPerInterval(a: App)
    requires a.running && Steady(a)
    ensures Run(a, TickRun(a.interval)).alerts == 1
    ensures Run(a, TickRun(a.interval)).final.remaining == a.remaining
  {
    CountdownClosedForm(a, a.interval, 1, a.interval - a.remaining);
  }

  /** From a successful start, `k` ticks fire one alert per whole interval. */
  lemma StartThenTicks(a: App, k: nat)
    requires !a.running && a.interval > 0
    ensures Run(a, [StartPressed] + TickRun(k)).alerts == k / a.interval
  {
    var events := [StartPressed] + TickRun(k);
    assert events[0] == StartPressed && events[1..] == TickRun(k);
    assert k == k / a.interval * a.interval + k % a.interval;
    CountdownClosedForm(Start(a).next, k, k / a.interval, k % a.interval);
  }

  // ---------------------------------------------------------------------------
  // The interval is re-read at every reload

  /**
    Once the counter is spent and the interval has been edited to zero or less,
    every tick fires an alert and reloads the non-positive interval.
   */
  lemma {:induction false} NonPositiveIntervalAlertsEveryTick(a: App, k: nat)
    requires a.running && a.interval <= 0 && a.remaining <= 1
    ensures Run(a, TickRun(k)).alerts == k
    ensures k > 0 ==> Run(a, TickRun(k)).final.remaining == a.interval
    decreases k
  {
    if k > 0 {
      assert TickRun(k)[1..] == TickRun(k - 1);
      NonPositiveIntervalAlertsEveryTick(Tick(a).next, k - 1);
    }
  }

  /**
    The interval is edited to zero or less while the counter still holds `r`
    ticks. The countdown in progress finishes normally, so the first alert
    comes on tick `r`. From then on every tick alerts, which gives
    `k - r + 1` alerts in `k >= r` ticks.
   */
  lemma {:induction false} NonPositiveIntervalAlertsAfterCountdown(a: App, k: nat)
    requires a.running && a.interval <= 0 && 1 <= a.remaining <= k
    ensures Run(a, TickRun(k)).alerts == k - a.remaining + 1
    ensures Run(a, TickRun(k)).final.remaining == a.interval
    decreases k
  {
    if a.remaining == 1 {
      NonPositiveIntervalAlertsEveryTick(a, k);
    } else {
      assert TickRun(k)[1..] == TickRun(k - 1);
      NonPositiveIntervalAlertsAfterCountdown(Tick(a).next, k - 1);
    }
  }

  /** A start with interval 0 is refused with a notice. */
  lemma ZeroIntervalRefusedAtStart()
    ensures Run(Init(), [IntervalEdited(0), StartPressed]).notices == [IntervalNotPositive]
  {
  }

  /**
    The same interval 0, edited in while the timer runs, is accepted at the next
    reload: with the interval set to 2, started, then edited to 0, four ticks
    fire three alerts.
   */
  lemma ZeroIntervalReloadedWhileRunning()
    ensures Run(Init(), [IntervalEdited(2), StartPressed, IntervalEdited(0)] + TickRun(4)).alerts == 3
  {
    var setup := [IntervalEdited(2), StartPressed, IntervalEdited(0)];
    var a := Run(Init(), setup).final;
    assert a.running && a.remaining == 2 && a.interval == 0;
    RunAppendAlerts(Init(), setup, TickRun(4));
    assert Run(Init(), setup).alerts == 0;
    var b := Tick(a).next;
    assert TickRun(4)[1..] == TickRun(3);
    assert Run(a, TickRun(4)).alerts == Run(b, TickRun(3)).alerts;
    NonPositiveIntervalAlertsEveryTick(b, 3);
  }
}
