/**
 The preloader overlay: a repeating timer raises a progress counter by a
 random step, clamped at 100; at 100 the timer is cleared and an exit
 sequence is queued whose last step runs the optional completion callback.
 The random draw is a parameter and the counter is a real number.
 */
module Preloader {

  /** The value at which loading is complete. */
  const Total: real := 100.0

  /** A draw of the random source: a number in [0, 1). */
  predicate IsDraw(r: real) {
    0.0 <= r < 1.0
  }

  /** Progress of the exit sequence queued when the counter reaches 100. */
  datatype Exit = NotStarted | Running | Finished

  /** The preloader's state.
      `current`: the counter; `stopped`: the timer has been cleared;
      `exit`: the exit sequence; `completions`: how many times the completion
      callback has run; `hasCallback`: whether the host supplied one. */
  datatype Loader = Loader(
    current: real,
    stopped: bool,
    exit: Exit,
    completions: nat,
    hasCallback: bool)

  /** The invariant every reachable state keeps. */
  predicate Valid(s: Loader) {
    && 0.0 <= s.current <= Total
    && (s.exit != NotStarted <==> s.current == Total)
    && (s.current == Total ==> s.stopped)
    && s.completions == (if s.exit == Finished && s.hasCallback then 1 else 0)
  }

  function Min(a: real, b: real): real {
    if a <= b then a else b
  }

  /** The state at mount: counter 0, timer running, nothing queued. */
  function Start(hasCallback: bool): (s: Loader)
    ensures Valid(s)
    ensures s.current == 0.0 && !s.stopped && s.completions == 0
    ensures Shown(s) == 0
  {
    Loader(0.0, false, NotStarted, 0, hasCallback)
  }

  /** The percentage label: the counter rounded down, an integer in 0..100. */
  function Shown(s: Loader): (p: int)
    requires 0.0 <= s.current <= Total
    ensures 0 <= p <= 100
    ensures p as real <= s.current < p as real + 1.0
  {
    s.current.Floor
  }

  /** One timer tick with draw `r`. The counter grows by at least 1 and by
      less than 8, clamped at 100; reaching 100 clears the timer and queues
      the exit sequence. A cleared timer never ticks again. */
  function Tick(s: Loader, r: real): (s': Loader)
    requires IsDraw(r)
    ensures s.stopped ==> s' == s
    ensures s.current <= Total ==> s.current <= s'.current
    ensures s'.current < s.current + 8.0
    ensures !s.stopped && s.current <= Total ==>
      s'.current <= Total && (s'.current == Total || s'.current >= s.current + 1.0)
    ensures s'.completions == s.completions && s'.hasCallback == s.hasCallback
    ensures !s.stopped && s'.current < Total ==> !s'.stopped && s'.exit == s.exit
    ensures Valid(s) ==> s'.exit == s.exit || (s.exit == NotStarted && s'.exit == Running && s'.current == Total && s'.stopped)
    ensures Valid(s) ==> Valid(s')
  {
    if s.stopped then s
    else
      var c := Min(s.current + r * 7.0 + 1.0, Total);
      if c >= Total then s.(current := c, stopped := true, exit := Running)
      else s.(current := c)
  }

  /** The last step of the exit sequence: the callback runs, if there is one. */
  function FinishExit(s: Loader): (s': Loader)
    ensures s'.current == s.current && s'.stopped == s.stopped
    ensures s'.completions == s.completions + (if s.exit == Running && s.hasCallback then 1 else 0)
    ensures s.exit == Running ==> s'.exit == Finished
    ensures s.exit != Running ==> s' == s
    ensures s'.hasCallback == s.hasCallback
    ensures Valid(s) ==> Valid(s')
  {
    if s.exit == Running then
      s.(exit := Finished, completions := s.completions + (if s.hasCallback then 1 else 0))
    else s
  }

  /** Unmounting clears the timer; an exit sequence already queued is not
      cancelled. */
  function Cleanup(s: Loader): (s': Loader)
    ensures s'.stopped
    ensures s'.current == s.current && s'.exit == s.exit && s'.completions == s.completions
    ensures s'.hasCallback == s.hasCallback
    ensures Valid(s) ==> Valid(s')
  {
    s.(stopped := true)
  }

  /** Clearing twice is the same as clearing once, and no tick changes a
      cleared preloader. */
  lemma CleanupIdempotent(s: Loader, r: real)
    requires IsDraw(r)
    ensures Cleanup(Cleanup(s)) == Cleanup(s)
    ensures Tick(Cleanup(s), r) == Cleanup(s)
  {
  }

  /** Something that can happen to a mounted preloader. */
  datatype Event = TimerTick(draw: real) | ExitEnd | Unmount

  predicate WellFormed(e: Event) {
    e.TimerTick? ==> IsDraw(e.draw)
  }

  predicate AllWellFormed(es: seq<Event>) {
    forall i :: 0 <= i < |es| ==> WellFormed(es[i])
  }

  function Step(s: Loader, e: Event): (s': Loader)
    requires WellFormed(e)
    ensures s.current <= Total ==> s.current <= s'.current
    ensures s'.hasCallback == s.hasCallback
    ensures Valid(s) ==> Valid(s')
  {
    match e
    case TimerTick(r) => Tick(s, r)
    case ExitEnd => FinishExit(s)
    case Unmount => Cleanup(s)
  }

  /** The state after the events `es`, in order. */
  function Run(s: Loader, es: seq<Event>): Loader
    requires AllWellFormed(es)
    decreases |es|
  {
    if es == [] then s else Run(Step(s, es[0]), es[1..])
  }

  /** Any run keeps the invariant and never lowers the counter or the label. */
  lemma {:induction false} RunValidMonotone(s: Loader, es: seq<Event>)
    requires Valid(s) && AllWellFormed(es)
    ensures Valid(Run(s, es))
    ensures s.current <= Run(s, es).current
    ensures Run(s, es).hasCallback == s.hasCallback
    ensures Shown(s) <= Shown(Run(s, es))
    decreases |es|
  {
    if es != [] {
      assert WellFormed(es[0]);
      RunValidMonotone(Step(s, es[0]), es[1..]);
    }
  }

  /** Whatever happens after mount, the callback runs at most once, and only
      once the counter is at 100 and a callback was supplied. */
  lemma CompletesAtMostOnce(hasCallback: bool, es: seq<Event>)
    requires AllWellFormed(es)
    ensures Run(Start(hasCallback), es).completions <= 1
    ensures Run(Start(hasCallback), es).completions == 1 ==>
      hasCallback && Run(Start(hasCallback), es).current == Total
  {
    RunValidMonotone(Start(hasCallback), es);
  }

  /** Once the exit sequence is queued, its end runs the callback exactly once:
      a second end changes nothing. */
  lemma ExitEndRunsCallbackOnce(s: Loader)
    requires Valid(s) && s.exit == Running && s.hasCallback
    ensures FinishExit(s).completions == 1
    ensures FinishExit(FinishExit(s)) == FinishExit(s)
  {
  }

  /** Unmounting before the counter reaches 100 means the callback never runs,
      whatever events follow. */
  lemma {:induction false} UnmountBeforeDoneNeverCompletes(s: Loader, es: seq<Event>)
    requires Valid(s) && s.exit == NotStarted && s.stopped
    requires AllWellFormed(es)
    ensures Run(s, es) == s
    ensures Run(s, es).completions == 0
    decreases |es|
  {
    if es != [] {
      assert WellFormed(es[0]);
      assert Step(s, es[0]) == s;
      UnmountBeforeDoneNeverCompletes(s, es[1..]);
    }
  }

  /** The state after the timer ticks with the draws `ds`, in order. */
  function Ticks(s: Loader, ds: seq<real>): Loader
    requires forall i :: 0 <= i < |ds| ==> IsDraw(ds[i])
    decreases |ds|
  {
    if ds == [] then s else Ticks(Tick(s, ds[0]), ds[1..])
  }

  /** While nobody unmounts it, each tick adds at least 1 until 100 is reached. */
  lemma {:induction false} TicksProgress(s: Loader, ds: seq<real>)
    requires forall i :: 0 <= i < |ds| ==> IsDraw(ds[i])
    requires Valid(s) && (s.stopped ==> s.current == Total)
    ensures Valid(Ticks(s, ds))
    ensures Ticks(s, ds).current >= Min(s.current + |ds| as real, Total)
    ensures s.exit != Finished ==> Ticks(s, ds).exit != Finished
    decreases |ds|
  {
    if ds != [] {
      var s1 := Tick(s, ds[0]);
      assert s1.stopped ==> s1.current == Total;
      TicksProgress(s1, ds[1..]);
    }
  }

  /** Each tick adds less than 8, so `k` ticks add at most `8 k`. */
  lemma {:induction false} TicksBounded(s: Loader, ds: seq<real>)
    requires forall i :: 0 <= i < |ds| ==> IsDraw(ds[i])
    ensures Ticks(s, ds).current <= s.current + 8.0 * |ds| as real
    decreases |ds|
  {
    if ds != [] {
      TicksBounded(Tick(s, ds[0]), ds[1..]);
    }
  }

  /** From mount, 100 ticks always bring the counter to 100, clear the timer
      and queue the exit sequence, whatever the draws. */
  lemma CompletesWithin100Ticks(hasCallback: bool, ds: seq<real>)
    requires forall i :: 0 <= i < |ds| ==> IsDraw(ds[i])
    requires |ds| >= 100
    ensures Ticks(Start(hasCallback), ds).current == Total
    ensures Ticks(Start(hasCallback), ds).stopped
    ensures Ticks(Start(hasCallback), ds).exit == Running
    ensures Valid(Ticks(Start(hasCallback), ds)) && Shown(Ticks(Start(hasCallback), ds)) == 100
  {
    TicksProgress(Start(hasCallback), ds);
  }

  /** From mount, 12 ticks or fewer never finish: the label stays below 100. */
  lemma NotDoneWithin12Ticks(hasCallback: bool, ds: seq<real>)
    requires forall i :: 0 <= i < |ds| ==> IsDraw(ds[i])
    requires |ds| <= 12
    ensures Ticks(Start(hasCallback), ds).exit == NotStarted
    ensures Valid(Ticks(Start(hasCallback), ds)) && Shown(Ticks(Start(hasCallback), ds)) <= 96
  {
    TicksBounded(Start(hasCallback), ds);
    TicksProgress(Start(hasCallback), ds);
  }
}
