/**
  The countdown-timer state machine of the SmokeAlert window controller.

  The window owns an interval (the integer the user types into the entry box),
  a running flag, a remaining-seconds counter and an always-on-top flag. The
  widgets whose state the controller sets explicitly (the remaining-time label,
  the enabled state of the start and stop buttons, the caption of the pin
  button) are kept as fields too, because the controller updates them at
  particular moments rather than deriving them from the other fields.

  Every handler is a pure function from the old state to the new one. The
  one-second scheduler is the environment: it delivers `TickFired` events at
  any point, so properties of runs count ticks rather than seconds.
  Playing the alarm sound is an output flag (`alert`) of a tick.
 */
module SmokeAlert {

  /** What the remaining-time label shows: a number of seconds, or "--". */
  datatype Display = Dashes | Seconds(count: int)

  /** Caption of the always-on-top button. */
  datatype PinCaption = PinWindow | UnpinWindow

  datatype App = App(
    interval: int,        // the value the interval entry currently yields
    running: bool,
    remaining: int,
    topmost: bool,
    shown: Display,
    startEnabled: bool,
    stopEnabled: bool,
    pinCaption: PinCaption
  )

  /** Interval the entry box holds when the window opens. */
  const DefaultInterval: int := 55

  /** The text update_timer_label puts on the label for a given running flag and count. */
  function LabelFor(running: bool, remaining: int): (d: Display)
    ensures d.Seconds? <==> running
    ensures running ==> d.count == remaining
  {
    if running then Seconds(remaining) else Dashes
  }

  /** The caption the pin button carries for a given always-on-top flag. */
  function CaptionFor(topmost: bool): (c: PinCaption)
    ensures c == UnpinWindow <==> topmost
  {
    if topmost then UnpinWindow else PinWindow
  }

  /**
    The relation every reachable state keeps between the timer fields and the
    widgets: the start button is enabled exactly when the timer is stopped, the
    stop button exactly when it runs, the label shows a number exactly when it
    runs (the current count, or the non-positive count of the tick that just
    fired an alert), and the pin caption matches the always-on-top flag.
   */
  predicate Consistent(a: App) {
    && a.startEnabled == !a.running
    && a.stopEnabled == a.running
    && (a.shown.Seconds? <==> a.running)
    && (a.shown.Seconds? ==> a.shown.count == a.remaining || a.shown.count <= 0)
    && a.pinCaption == CaptionFor(a.topmost)
  }

  /** The state right after the window is built. */
  function Init(): (a: App)
    ensures Consistent(a)
    ensures !a.running && !a.topmost && a.shown == Dashes
    ensures a.interval == DefaultInterval && a.remaining == 0
  {
    App(DefaultInterval, false, 0, false, Dashes, true, false, PinWindow)
  }

  /** Why a press of the start button was refused. */
  datatype Notice = TimerAlreadyRunning | IntervalNotPositive

  datatype StartOutput = StartOutput(next: App, notices: seq<Notice>)

  /**
    The start button. A refused start reports one notice and changes nothing;
    an accepted one loads the counter with the entry's current interval.
   */
  function Start(a: App): (o: StartOutput)
    ensures |o.notices| <= 1
    ensures o.notices == [TimerAlreadyRunning] <==> a.running
    ensures o.notices == [IntervalNotPositive] <==> !a.running && a.interval <= 0
    ensures o.notices != [] ==> o.next == a
    ensures o.notices == [] ==>
              && o.next.running
              && 0 < o.next.remaining == a.interval
              && o.next.shown == Seconds(a.interval)
              && !o.next.startEnabled && o.next.stopEnabled
    ensures o.next.interval == a.interval
    ensures o.next.topmost == a.topmost && o.next.pinCaption == a.pinCaption
  {
    if a.running then
      StartOutput(a, [TimerAlreadyRunning])
    else if a.interval <= 0 then
      StartOutput(a, [IntervalNotPositive])
    else
      var loaded := a.(running := true, remaining := a.interval);
      var labelled := loaded.(shown := LabelFor(loaded.running, loaded.remaining));
      StartOutput(labelled.(startEnabled := false, stopEnabled := true), [])
  }

  /** The stop button: accepted in every state, leaves the counter as it is. */
  function Stop(a: App): (b: App)
    ensures !b.running && b.shown == Dashes
    ensures b.startEnabled && !b.stopEnabled
    ensures b.remaining == a.remaining && b.interval == a.interval
    ensures b.topmost == a.topmost && b.pinCaption == a.pinCaption
  {
    var stopped := a.(running := false, startEnabled := true, stopEnabled := false);
    stopped.(shown := LabelFor(stopped.running, stopped.remaining))
  }

  datatype TickOutput = TickOutput(next: App, alert: bool)

  /**
    One scheduled tick. While stopped it does nothing. While running it counts
    down by one and shows the new count; when the count is no longer positive
    it raises one alert and reloads the counter from the interval the entry
    yields NOW, not the one the timer was started with.
   */
  function Tick(a: App): (o: TickOutput)
    ensures !a.running ==> o.next == a && !o.alert
    ensures o.alert <==> a.running && a.remaining <= 1
    ensures a.running ==> o.next.running && o.next.shown == Seconds(a.remaining - 1)
    ensures a.running && !o.alert ==> o.next.remaining == a.remaining - 1
    ensures o.alert ==> o.next.remaining == a.interval
    ensures o.next.interval == a.interval
    ensures o.next.startEnabled == a.startEnabled && o.next.stopEnabled == a.stopEnabled
    ensures o.next.topmost == a.topmost && o.next.pinCaption == a.pinCaption
  {
    if !a.running then
      TickOutput(a, false)
    else
      var counted := a.(remaining := a.remaining - 1);
      var labelled := counted.(shown := LabelFor(counted.running, counted.remaining));
      if labelled.remaining <= 0 then
        TickOutput(labelled.(remaining := labelled.interval), true)
      else
        TickOutput(labelled, false)
  }

  /** The always-on-top button: flips the flag and swaps the button caption. */
  function ToggleTopmost(a: App): (b: App)
    ensures b.topmost == !a.topmost
    ensures b.pinCaption == CaptionFor(b.topmost)
    ensures b.(topmost := a.topmost, pinCaption := a.pinCaption) == a
  {
    var flipped := a.(topmost := !a.topmost);
    flipped.(pinCaption := CaptionFor(flipped.topmost))
  }

  /** The user edits the interval entry; nothing else reacts until it is read. */
  function SetInterval(a: App, value: int): (b: App)
    ensures b.interval == value
    ensures b.(interval := a.interval) == a
  {
    a.(interval := value)
  }

  /** Everything that can happen to the window. */
  datatype Event =
    | StartPressed
    | StopPressed
    | TickFired
    | TopmostPressed
    | IntervalEdited(value: int)

  datatype Output = Output(next: App, alert: bool, notices: seq<Notice>)

  /** Dispatches one event to its handler. */
  function Handle(a: App, e: Event): (o: Output)
    ensures Consistent(a) ==> Consistent(o.next)
    ensures o.alert ==> e == TickFired
    ensures o.notices != [] ==> e == StartPressed && o.next == a
  {
    match e
    case StartPressed =>
      var s := Start(a);
      Output(s.next, false, s.notices)
    case StopPressed => Output(Stop(a), false, [])
    case TickFired =>
      var t := Tick(a);
      Output(t.next, t.alert, [])
    case TopmostPressed => Output(ToggleTopmost(a), false, [])
    case IntervalEdited(v) => Output(SetInterval(a, v), false, [])
  }

  /** The outcome of a whole sequence of events. */
  datatype Trace = Trace(final: App, alerts: nat, notices: seq<Notice>)

  /** Runs the events in order, counting alerts and collecting refusal notices. */
  function Run(a: App, events: seq<Event>): (t: Trace)
    ensures t.alerts <= |events|
    ensures |t.notices| <= |events|
    ensures Consistent(a) ==> Consistent(t.final)
    decreases |events|
  {
    if events == [] then
      Trace(a, 0, [])
    else
      var o := Handle(a, events[0]);
      var rest := Run(o.next, events[1..]);
      Trace(rest.final, rest.alerts + (if o.alert then 1 else 0), o.notices + rest.notices)
  }

  /** `k` consecutive ticks and nothing else. */
  function TickRun(k: nat): (events: seq<Event>)
    ensures |events| == k
    ensures forall i :: 0 <= i < k ==> events[i] == TickFired
  {
    seq(k, i => TickFired)
  }
}
