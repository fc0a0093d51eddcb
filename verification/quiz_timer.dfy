/** The quiz countdown: a number of seconds left that a one-second
    interval decrements while the timer is running, and the callback
    that fires when it runs out. The interval is an explicit tick event. */
module QuizTimer {
  import opened Formatters
  import opened Text

  datatype Timer = Timer(remaining: int, paused: bool)

  /** The timer as mounted: the full duration left. */
  function Start(duration: int, paused: bool): (t: Timer)
    ensures t.remaining == duration && t.paused == paused
  {
    Timer(duration, paused)
  }

  /** An interval runs only while not paused and with time left. */
  predicate Running(t: Timer) {
    !t.paused && t.remaining > 0
  }

  /** One interval tick: with one second or less left the time drops to
      zero and the time-up callback fires (the second result); otherwise
      one second goes. A stopped or paused timer has no interval, so a
      tick does nothing. */
  function Tick(t: Timer): (r: (Timer, bool))
    ensures !Running(t) ==> r == (t, false)
    ensures Running(t) && t.remaining <= 1 ==> r == (t.(remaining := 0), true)
    ensures Running(t) && t.remaining > 1 ==> r == (t.(remaining := t.remaining - 1), false)
  {
    if !Running(t) then (t, false)
    else if t.remaining <= 1 then (t.(remaining := 0), true)
    else (t.(remaining := t.remaining - 1), false)
  }

  /** What happens to a mounted timer: a tick, or the pause flag set. */
  datatype Event = TickEvent | SetPaused(paused: bool)

  function Step(t: Timer, e: Event): (r: (Timer, bool)) {
    match e
    case TickEvent => Tick(t)
    case SetPaused(p) => (t.(paused := p), false)
  }

  /** Runs a sequence of events; the second result counts how often the
      time-up callback fired. */
  function Run(t: Timer, events: seq<Event>): (r: (Timer, nat))
    decreases |events|
  {
    if events == [] then (t, 0)
    else
      var (u, fired) := Step(t, events[0]);
      var (v, n) := Run(u, events[1..]);
      (v, n + (if fired then 1 else 0))
  }

  /** Time left never grows, and no tick takes it below zero. */
  lemma StepNonIncreasing(t: Timer, e: Event)
    ensures Step(t, e).0.remaining <= t.remaining
    ensures Step(t, e).0.remaining >= 0 || Step(t, e).0.remaining == t.remaining
  {
  }

  /** Over any sequence of ticks and pauses the time left only falls and
      never turns negative from a non-negative start. */
  lemma {:induction false} RunNonIncreasing(t: Timer, events: seq<Event>)
    ensures Run(t, events).0.remaining <= t.remaining
    ensures t.remaining >= 0 ==> Run(t, events).0.remaining >= 0
    decreases |events|
  {
    if events != [] {
      StepNonIncreasing(t, events[0]);
      RunNonIncreasing(Step(t, events[0]).0, events[1..]);
    }
  }

  /** The time-up callback fires at most once over any run, and never
      for a timer that had no time left. */
  lemma {:induction false} TimeUpFiresAtMostOnce(t: Timer, events: seq<Event>)
    ensures Run(t, events).1 <= (if t.remaining > 0 then 1 else 0)
    decreases |events|
  {
    if events != [] {
      var (u, fired) := Step(t, events[0]);
      TimeUpFiresAtMostOnce(u, events[1..]);
    }
  }

  function Ticks(k: nat): (r: seq<Event>)
    ensures |r| == k && forall i | 0 <= i < k :: r[i] == TickEvent
  {
    seq(k, _ => TickEvent)
  }

  /** A running timer of `d` seconds reaches zero after exactly `d` ticks,
      firing the callback once. */
  lemma {:induction false} CountdownCompletes(d: nat)
    requires d >= 1
    ensures Run(Timer(d, false), Ticks(d)) == (Timer(0, false), 1)
  {
    if d > 1 {
      CountdownCompletes(d - 1);
      assert Ticks(d)[1..] == Ticks(d - 1);
    } else {
      assert Ticks(1)[1..] == [];
    }
  }

  /** The colour band: critical under a minute, warning under five. */
  datatype Urgency = Calm | Warning | Critical

  function UrgencyOf(remaining: int): (u: Urgency)
    ensures u == Critical <==> remaining < 60
    ensures u == Warning <==> 60 <= remaining < 300
    ensures u == Calm <==> remaining >= 300
  {
    if remaining < 60 then Critical else if remaining < 300 then Warning else Calm
  }

  /** As the time falls the band only gets more urgent. */
  lemma UrgencyMonotone(a: int, b: int)
    requires a <= b
    ensures UrgencyOf(b) == Critical ==> UrgencyOf(a) == Critical
    ensures UrgencyOf(b) == Warning ==> UrgencyOf(a) != Calm
  {
  }

  /** `formatTime`: "M:SS", whole minutes then the seconds padded to
      two digits; the two fields read back as the time left. */
  function FormatTime(seconds: nat): (r: string)
    ensures |r| >= 4 && r[|r| - 3] == ':'
    ensures r[..|r| - 3] == NatToString(seconds / 60)
    ensures AllDigits(r[|r| - 2..]) && DigitsValue(r[|r| - 2..]) == seconds % 60
  {
    MinutesSeconds(seconds)
  }
}
