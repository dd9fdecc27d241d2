/**
 * `RestTimerManager`: a countdown of whole seconds. The once-a-second timer is a `Tick` method the
 * environment calls while the timer runs; the subscription itself and the haptic feedback on
 * completion are not modelled.
 */
module RestTimer {
  import opened Numbers

  /** The observable state: seconds left, whether the countdown runs, and the full duration. */
  datatype TimerState = TimerState(remainingSeconds: int, isActive: bool, totalDuration: int)

  /** What every operation keeps: never more left than the full duration. */
  predicate Inv(t: TimerState) {
    t.remainingSeconds <= t.totalDuration
  }

  // ---------------------------------------------------------------------------------------------
  // the transitions, as functions of the state

  function AfterSetDuration(t: TimerState, seconds: int): TimerState {
    TimerState(seconds, false, seconds)
  }

  /** `start`: at zero it only refills and stays stopped; otherwise it runs. */
  function AfterStart(t: TimerState): TimerState {
    if t.remainingSeconds > 0 then t.(isActive := true)
    else t.(remainingSeconds := t.totalDuration)
  }

  /** One timer firing while running: a second less, or completion at zero. */
  function AfterTick(t: TimerState): TimerState {
    if !t.isActive then t
    else if t.remainingSeconds > 0 then t.(remainingSeconds := t.remainingSeconds - 1)
    else AfterCompletion(t)
  }

  /** `timerCompleted`: stopped, and refilled for the next rest. */
  function AfterCompletion(t: TimerState): TimerState {
    TimerState(t.totalDuration, false, t.totalDuration)
  }

  function AfterPause(t: TimerState): TimerState {
    t.(isActive := false)
  }

  function AfterReset(t: TimerState): TimerState {
    TimerState(t.totalDuration, false, t.totalDuration)
  }

  function AfterAddTime(t: TimerState, seconds: int): TimerState {
    t.(remainingSeconds := t.remainingSeconds + seconds, totalDuration := t.totalDuration + seconds)
  }

  /** `n` firings in a row. */
  function Ticks(t: TimerState, n: nat): TimerState
    decreases n
  {
    if n == 0 then t else Ticks(AfterTick(t), n - 1)
  }

  // ---------------------------------------------------------------------------------------------
  // what the transitions promise

  /** Every operation keeps `remainingSeconds <= totalDuration`. */
  lemma EveryOperationKeepsInv(t: TimerState, seconds: int)
    requires Inv(t)
    ensures Inv(AfterSetDuration(t, seconds)) && Inv(AfterStart(t)) && Inv(AfterTick(t)) && Inv(AfterPause(t))
    ensures Inv(AfterReset(t)) && Inv(AfterAddTime(t, seconds))
  {
  }

  /** Starting never changes the duration, and runs exactly when there is time left. */
  lemma StartRunsOnlyWithTimeLeft(t: TimerState)
    ensures AfterStart(t).totalDuration == t.totalDuration
    ensures AfterStart(t).isActive <==> t.remainingSeconds > 0 || t.isActive
    ensures t.remainingSeconds <= 0 ==> AfterStart(t).remainingSeconds == t.totalDuration
  {
  }

  /**
   * A running countdown from `r >= 0` seconds shows 0 after `r` firings and has completed after
   * one more: stopped, and refilled to the full duration.
   */
  lemma {:induction false} CountdownCompletes(t: TimerState)
    requires t.isActive && t.remainingSeconds >= 0
    ensures Ticks(t, t.remainingSeconds) == t.(remainingSeconds := 0)
    ensures Ticks(t, t.remainingSeconds + 1) == TimerState(t.totalDuration, false, t.totalDuration)
    decreases t.remainingSeconds
  {
    if t.remainingSeconds > 0 {
      CountdownCompletes(AfterTick(t));
      TicksOfTick(t, t.remainingSeconds);
      TicksOfTick(t, t.remainingSeconds + 1);
    }
  }

  lemma TicksOfTick(t: TimerState, n: nat)
    requires n > 0
    ensures Ticks(t, n) == Ticks(AfterTick(t), n - 1)
  {
  }

  /** A stopped timer ignores firings. */
  lemma {:induction false} StoppedTimerStays(t: TimerState, n: nat)
    requires !t.isActive
    ensures Ticks(t, n) == t
  {
    if n > 0 {
      StoppedTimerStays(t, n - 1);
    }
  }

  // ---------------------------------------------------------------------------------------------
  // the display

  /** `timeString`: `"%d:%02d"` of the minutes and the seconds within the minute. */
  function TimeString(remainingSeconds: int): string {
    IntToString(SwiftDiv(remainingSeconds, 60)) + ":" + Pad2(SwiftRem(remainingSeconds, 60))
  }

  /** For a non-negative count the text reads back: minutes, a colon, then two digits of seconds. */
  lemma TimeStringReadsBack(r: int)
    requires r >= 0
    ensures |TimeString(r)| >= 4 && TimeString(r)[|TimeString(r)| - 3] == ':'
    ensures AllDigits(TimeString(r)[..|TimeString(r)| - 3]) && AllDigits(TimeString(r)[|TimeString(r)| - 2..])
    ensures 60 * DigitsValue(TimeString(r)[..|TimeString(r)| - 3]) + DigitsValue(TimeString(r)[|TimeString(r)| - 2..]) == r
    ensures DigitsValue(TimeString(r)[|TimeString(r)| - 2..]) < 60
  {
    var minutes, seconds := IntToString(SwiftDiv(r, 60)), Pad2(SwiftRem(r, 60));
    var s := TimeString(r);
    assert s == minutes + ":" + seconds;
    assert s[..|s| - 3] == minutes;
    assert s[|s| - 2..] == seconds;
  }

  // ---------------------------------------------------------------------------------------------
  // the manager

  class RestTimerManager {
    var remainingSeconds: int
    var isActive: bool
    var totalDuration: int

    function State(): TimerState
      reads this
    {
      TimerState(remainingSeconds, isActive, totalDuration)
    }

    /** A fresh manager: 90 seconds, stopped. */
    constructor()
      ensures State() == TimerState(90, false, 90) && Inv(State())
    {
      remainingSeconds, isActive, totalDuration := 90, false, 90;
    }

    method SetDuration(seconds: int)
      modifies this
      ensures State() == AfterSetDuration(old(State()), seconds)
    {
      totalDuration := seconds;
      remainingSeconds := seconds;
      isActive := false;
    }

    method Start()
      modifies this
      ensures State() == AfterStart(old(State()))
    {
      if remainingSeconds <= 0 {
        remainingSeconds := totalDuration;
        return;
      }
      isActive := true;
    }

    /** The body of the timer's `sink`, delivered only while the countdown runs. */
    method Tick()
      requires isActive
      modifies this
      ensures State() == AfterTick(old(State()))
    {
      if remainingSeconds > 0 {
        remainingSeconds := remainingSeconds - 1;
      } else {
        TimerCompleted();
      }
    }

    method Pause()
      modifies this
      ensures State() == AfterPause(old(State()))
    {
      isActive := false;
    }

    method Reset()
      modifies this
      ensures State() == AfterReset(old(State()))
    {
      isActive := false;
      remainingSeconds := totalDuration;
    }

    method AddTime(seconds: int)
      modifies this
      ensures State() == AfterAddTime(old(State()), seconds)
    {
      remainingSeconds := remainingSeconds + seconds;
      totalDuration := totalDuration + seconds;
    }

    method TimerCompleted()
      modifies this
      ensures State() == AfterCompletion(old(State()))
    {
      isActive := false;
      remainingSeconds := totalDuration;
    }

    /** `timeString`: for a non-negative count, minutes, a colon, and two digits of seconds that read back as the count. */
    function TimeText(): (s: string)
      reads this
      ensures remainingSeconds >= 0 ==> |s| >= 4 && s[|s| - 3] == ':'
      ensures remainingSeconds >= 0 ==> AllDigits(s[..|s| - 3]) && AllDigits(s[|s| - 2..])
      ensures remainingSeconds >= 0 ==>
        60 * DigitsValue(s[..|s| - 3]) + DigitsValue(s[|s| - 2..]) == remainingSeconds && DigitsValue(s[|s| - 2..]) < 60
    {
      TimeStringReadsBack(if remainingSeconds >= 0 then remainingSeconds else 0);
      TimeString(remainingSeconds)
    }
  }
}
