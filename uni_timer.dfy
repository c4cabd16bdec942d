/** UniTimer: a timer driven by the caller's delta times. CurrentTime is the
    time the timer has accumulated, _initialTime the value of CurrentTime
    at the last Reset, _duration the time to run for, IsRunning whether
    ticks advance it. Times are reals: float rounding is not modelled. */
module UniTimers {
  import opened Wrappers

  /** The four fields of the struct as one value. */
  datatype TimerState = TimerState(currentTime: real, isRunning: bool, initialTime: real, duration: real)

  /** The time since the last Reset. */
  function Elapsed(s: TimerState): real
  {
    s.currentTime - s.initialTime
  }

  /** A tick's new state and its return value. */
  datatype TickResult = TickResult(state: TimerState, finished: bool)

  /** Start(duration): Reset, then set the duration and run. */
  function Started(s: TimerState, duration: real): (r: TimerState)
    ensures r.isRunning && r.duration == duration
    ensures r.currentTime == s.currentTime && Elapsed(r) == 0.0
  {
    TimerState(s.currentTime, true, s.currentTime, duration)
  }

  /** Stop and Pause: only IsRunning changes, to false. */
  function Stopped(s: TimerState): (r: TimerState)
    ensures !r.isRunning
    ensures r.currentTime == s.currentTime && r.initialTime == s.initialTime && r.duration == s.duration
  {
    if s.isRunning then s.(isRunning := false) else s
  }

  /** Resume: only IsRunning changes, to true. */
  function Resumed(s: TimerState): (r: TimerState)
    ensures r.isRunning
    ensures r.currentTime == s.currentTime && r.initialTime == s.initialTime && r.duration == s.duration
  {
    s.(isRunning := true)
  }

  /** Reset: the start point moves to the current time. */
  function Reset(s: TimerState): (r: TimerState)
    ensures Elapsed(r) == 0.0
    ensures r.currentTime == s.currentTime && r.isRunning == s.isRunning && r.duration == s.duration
  {
    s.(initialTime := s.currentTime)
  }

  /** Progress: elapsed over duration; a zero duration has no finite
      quotient (the float division yields an infinity or NaN). */
  function Progress(s: TimerState): (r: Option<real>)
    ensures r.None? <==> s.duration == 0.0
    ensures r.Some? ==> r.value * s.duration == Elapsed(s)
  {
    if s.duration == 0.0 then None else Some(Elapsed(s) / s.duration)
  }

  /** Tick(deltaTime): a running timer short of its duration advances and
      reports false; a running timer at or past it reports true and stays
      put; a stopped timer reports false and stays put. IsRunning is never
      changed. */
  function Tick(s: TimerState, deltaTime: real): (r: TickResult)
    ensures r.state.isRunning == s.isRunning && r.state.initialTime == s.initialTime
    ensures r.state.duration == s.duration
    ensures r.finished <==> s.isRunning && Elapsed(s) >= s.duration
    ensures r.finished || !s.isRunning ==> r.state == s
    ensures !r.finished && s.isRunning ==> r.state.currentTime == s.currentTime + deltaTime
  {
    if s.isRunning && Elapsed(s) < s.duration then
      TickResult(s.(currentTime := s.currentTime + deltaTime), false)
    else if s.isRunning then TickResult(s, true)
    else TickResult(s, false)
  }

  /** TickUntilFinished(deltaTime): like Tick, except that reaching the
      duration stops the timer. */
  function TickUntilFinished(s: TimerState, deltaTime: real): (r: TickResult)
    ensures r.state.initialTime == s.initialTime && r.state.duration == s.duration
    ensures r.finished <==> s.isRunning && Elapsed(s) >= s.duration
    ensures r.finished ==> r.state == s.(isRunning := false)
    ensures !s.isRunning ==> r.state == s
    ensures !r.finished && s.isRunning ==>
              r.state == s.(currentTime := s.currentTime + deltaTime)
  {
    if !s.isRunning then TickResult(s, false)
    else if Elapsed(s) < s.duration then
      TickResult(s.(currentTime := s.currentTime + deltaTime), false)
    else TickResult(s.(isRunning := false), true)
  }

  /** n calls of TickUntilFinished with the same delta; the result counts
      how many of them returned true. */
  function TickUntilFinishedTimes(s: TimerState, deltaTime: real, n: nat): (TimerState, nat)
    decreases n
  {
    if n == 0 then (s, 0)
    else
      var step := TickUntilFinished(s, deltaTime);
      var rest := TickUntilFinishedTimes(step.state, deltaTime, n - 1);
      (rest.0, rest.1 + if step.finished then 1 else 0)
  }

  /** Without a Start or Resume in between, any number of
      TickUntilFinished calls report completion at most once, and after
      the report the timer is stopped for good. */
  lemma {:induction false} CompletionReportedOnce(s: TimerState, deltaTime: real, n: nat)
    ensures TickUntilFinishedTimes(s, deltaTime, n).1 <= 1
    ensures TickUntilFinishedTimes(s, deltaTime, n).1 == 1 ==> !TickUntilFinishedTimes(s, deltaTime, n).0.isRunning
    ensures !s.isRunning ==> TickUntilFinishedTimes(s, deltaTime, n) == (s, 0)
    decreases n
  {
    if n > 0 {
      var step := TickUntilFinished(s, deltaTime);
      CompletionReportedOnce(step.state, deltaTime, n - 1);
    }
  }

  /** Once Tick has reported true, it keeps reporting true without
      advancing time. */
  lemma TickStaysFinished(s: TimerState, deltaTime: real, nextDelta: real)
    requires Tick(s, deltaTime).finished
    ensures Tick(Tick(s, deltaTime).state, nextDelta) == Tick(s, deltaTime)
  {
  }

  /** Stop is idempotent, Start always yields a running timer at progress
      zero, and a stopped timer ignores ticks of both kinds. */
  lemma TimerLaws(s: TimerState, duration: real, deltaTime: real)
    ensures Stopped(Stopped(s)) == Stopped(s)
    ensures duration != 0.0 ==> Progress(Started(s, duration)) == Some(0.0)
    ensures Tick(Stopped(s), deltaTime) == TickResult(Stopped(s), false)
    ensures TickUntilFinished(Stopped(s), deltaTime) == TickResult(Stopped(s), false)
  {
  }

  /** Over real time, with a positive delta a running timer reports
      completion within (duration - elapsed) / delta + 1 calls of
      TickUntilFinished; the source's float arithmetic can round a small
      delta away and stall, which this real-valued model does not show. */
  lemma {:induction false} TickUntilFinishedTerminates(s: TimerState, deltaTime: real, n: nat)
    requires s.isRunning && deltaTime > 0.0 && n > 0
    requires Elapsed(s) + (n - 1) as real * deltaTime >= s.duration
    ensures TickUntilFinishedTimes(s, deltaTime, n).1 == 1
    decreases n
  {
    var step := TickUntilFinished(s, deltaTime);
    if !step.finished {
      assert n > 1;
      assert Elapsed(step.state) == Elapsed(s) + deltaTime;
      TickUntilFinishedTerminates(step.state, deltaTime, n - 1);
    } else {
      CompletionReportedOnce(step.state, deltaTime, n - 1);
    }
  }

  /** The struct, updated in place by its methods. */
  class UniTimer {
    var currentTime: real
    var isRunning: bool
    var initialTime: real
    var duration: real

    function State(): TimerState
      reads this
    {
      TimerState(currentTime, isRunning, initialTime, duration)
    }

    /** default(UniTimer): every field zero or false. */
    constructor ()
      ensures State() == TimerState(0.0, false, 0.0, 0.0)
    {
      currentTime := 0.0;
      isRunning := false;
      initialTime := 0.0;
      duration := 0.0;
    }

    method Start(duration: real)
      modifies this
      ensures State() == Started(old(State()), duration)
    {
      ResetTime();
      this.duration := duration;
      isRunning := true;
    }

    method Stop()
      modifies this
      ensures State() == Stopped(old(State()))
    {
      if isRunning {
        isRunning := false;
      }
    }

    method Resume()
      modifies this
      ensures State() == Resumed(old(State()))
    {
      isRunning := true;
    }

    method Pause()
      modifies this
      ensures State() == Stopped(old(State()))
    {
      isRunning := false;
    }

    method ResetTime()
      modifies this
      ensures State() == Reset(old(State()))
    {
      initialTime := currentTime;
    }

    method TickBy(deltaTime: real) returns (finished: bool)
      modifies this
      ensures TickResult(State(), finished) == Tick(old(State()), deltaTime)
    {
      if isRunning && currentTime - initialTime < duration {
        currentTime := currentTime + deltaTime;
        return false;
      }
      if isRunning {
        return true;
      }
      return false;
    }

    method TickUntilFinishedBy(deltaTime: real) returns (finished: bool)
      modifies this
      ensures TickResult(State(), finished) == TickUntilFinished(old(State()), deltaTime)
    {
      if !isRunning {
        return false;
      }
      if currentTime - initialTime < duration {
        currentTime := currentTime + deltaTime;
        return false;
      }
      isRunning := false;
      return true;
    }
  }
}
