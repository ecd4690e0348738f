/**
  The Pomodoro countdown of `PomodoroTimer.tsx`: a work phase, then a short
  break, and after every fourth work phase a long break instead, each phase
  counting down its configured number of minutes one second at a time.
*/
module Timer {

  datatype Mode = Work | ShortBreak | LongBreak

  /** Default durations, in minutes, of the three phases. */
  const DefaultWork: int := 25
  const DefaultShortBreak: int := 5
  const DefaultLongBreak: int := 15

  /** The upper end of each duration slider (every slider starts at 1 and steps by 1). */
  function MaxMinutes(m: Mode): (max: int)
    ensures max == 30 <==> m == ShortBreak
    ensures max == 60 <==> m != ShortBreak
  {
    match m
    case Work => 60
    case ShortBreak => 30
    case LongBreak => 60
  }

  /** The label shown above the clock. */
  function Label(m: Mode): string {
    match m
    case Work => "Focus Time"
    case ShortBreak => "Short Break"
    case LongBreak => "Long Break"
  }

  /** The three labels tell the three modes apart. */
  lemma LabelDistinguishesModes(a: Mode, b: Mode)
    ensures Label(a) == Label(b) <==> a == b
  {
  }

  /**
    The `mm:ss` display: whole minutes and the seconds left over, for a
    non-negative count of seconds.
  */
  function Clock(seconds: nat): (display: (nat, nat))
    ensures display.0 * 60 + display.1 == seconds
    ensures display.1 < 60
  {
    (seconds / 60, seconds % 60)
  }

  /**
    The decision table applied when a countdown reaches zero: the next mode
    and the number of completed work sessions after it. A work phase counts
    one more session and goes to a long break when that new count is a
    multiple of four, to a short break otherwise; a break goes back to work.
  */
  function NextPhase(mode: Mode, sessions: nat): (next: (Mode, nat))
    ensures mode == Work ==> next.1 == sessions + 1 && next.0 != Work
    ensures mode != Work ==> next == (Work, sessions)
    ensures next.0 == LongBreak <==> mode == Work && next.1 % 4 == 0
  {
    if mode == Work then
      var count := sessions + 1;
      (if count % 4 == 0 then LongBreak else ShortBreak, count)
    else
      (Work, sessions)
  }

  /** Work and breaks alternate: the phase after a break is work, the one after work a break. */
  lemma NextPhaseAlternates(mode: Mode, sessions: nat)
    ensures (NextPhase(mode, sessions).0 == Work) <==> (mode != Work)
  {
  }

  /**
    What the mode says about the session count in every reachable state: a
    break follows at least one work session, and it is the long one exactly
    when the count is a multiple of four.
  */
  predicate PhaseConsistent(mode: Mode, sessions: nat) {
    mode == Work || (sessions > 0 && (mode == LongBreak <==> sessions % 4 == 0))
  }

  /** The decision table keeps mode and count consistent. */
  lemma NextPhaseConsistent(mode: Mode, sessions: nat)
    ensures PhaseConsistent(NextPhase(mode, sessions).0, NextPhase(mode, sessions).1)
  {
  }

  /** Mode and session count after `k` consecutive phase completions. */
  function Phases(mode: Mode, sessions: nat, k: nat): (Mode, nat) {
    if k == 0 then (mode, sessions)
    else
      var (m, n) := Phases(mode, sessions, k - 1);
      NextPhase(m, n)
  }

  /**
    From a fresh or reset timer, after `k` whole work/break rounds the timer is
    back at work with `k` sessions completed, and the break of round `k + 1` is
    long exactly when `k + 1` is a multiple of four.
  */
  lemma {:induction false} FreshCycle(k: nat)
    ensures Phases(Work, 0, 2 * k) == (Work, k)
    ensures Phases(Work, 0, 2 * k + 1) == (if (k + 1) % 4 == 0 then LongBreak else ShortBreak, k + 1)
  {
    if k > 0 {
      FreshCycle(k - 1);
      assert 2 * k == 2 * (k - 1) + 1 + 1;
    }
  }

  /** Four work sessions from a fresh timer: short, short, short, then long break, with the count at 4. */
  lemma FourSessions()
    ensures Phases(Work, 0, 1) == (ShortBreak, 1)
    ensures Phases(Work, 0, 3) == (ShortBreak, 2)
    ensures Phases(Work, 0, 5) == (ShortBreak, 3)
    ensures Phases(Work, 0, 7) == (LongBreak, 4)
    ensures Phases(Work, 0, 8) == (Work, 4)
  {
    FreshCycle(0);
    FreshCycle(1);
    FreshCycle(2);
    FreshCycle(3);
    FreshCycle(4);
  }

  /** The state of one timer view: the three durations and the countdown. */
  class PomodoroTimer {
    var workDuration: int
    var shortBreakDuration: int
    var longBreakDuration: int
    var mode: Mode
    var seconds: nat
    var isActive: bool
    var sessionsCompleted: nat

    /** The configured duration, in minutes, of phase `m`. */
    function Duration(m: Mode): int
      reads this
    {
      match m
      case Work => workDuration
      case ShortBreak => shortBreakDuration
      case LongBreak => longBreakDuration
    }

    /**
      The object invariant: every duration is within its slider's range, the
      countdown never exceeds the length of the current phase, and the mode
      agrees with the session count.
    */
    ghost predicate Valid()
      reads this
    {
      && 1 <= workDuration <= MaxMinutes(Work)
      && 1 <= shortBreakDuration <= MaxMinutes(ShortBreak)
      && 1 <= longBreakDuration <= MaxMinutes(LongBreak)
      && seconds <= Duration(mode) * 60
      && PhaseConsistent(mode, sessionsCompleted)
    }

    /**
      `getTotalTime`: the length in seconds of the current phase. It is
      positive and bounds the countdown, so the progress ratio
      `seconds / total` lies between 0 and 1.
    */
    function TotalTime(): (total: int)
      reads this
      requires Valid()
      ensures total >= 60
      ensures seconds <= total
      ensures total % 60 == 0 && total / 60 == Duration(mode)
    {
      Duration(mode) * 60
    }

    /** The initial state: 25/5/15 minutes, a paused work phase of 1500 seconds, no sessions. */
    constructor ()
      ensures Valid()
      ensures workDuration == 25 && shortBreakDuration == 5 && longBreakDuration == 15
      ensures mode == Work && seconds == 1500 && !isActive && sessionsCompleted == 0
    {
      workDuration := DefaultWork;
      shortBreakDuration := DefaultShortBreak;
      longBreakDuration := DefaultLongBreak;
      mode := Work;
      seconds := DefaultWork * 60;
      isActive := false;
      sessionsCompleted := 0;
    }

    /**
      One elapsed second of the interval. It fires only while the timer is
      running with time left, takes exactly one second off, and changes nothing
      else; otherwise (a stale callback) it does nothing.
    */
    method Tick()
      requires Valid()
      modifies this
      ensures Valid()
      ensures old(isActive && seconds > 0) ==> seconds == old(seconds) - 1
      ensures !old(isActive && seconds > 0) ==> seconds == old(seconds)
      ensures mode == old(mode) && isActive == old(isActive)
      ensures sessionsCompleted == old(sessionsCompleted)
      ensures workDuration == old(workDuration) && shortBreakDuration == old(shortBreakDuration)
      ensures longBreakDuration == old(longBreakDuration)
    {
      if isActive && seconds > 0 {
        seconds := seconds - 1;
      }
    }

    /**
      The zero edge of the effect. When the countdown is at zero the timer
      pauses, moves to the phase `NextPhase` picks and starts that phase's full
      countdown; `notify` says whether `onComplete` was called, which happens
      exactly when a work phase ended. The new countdown is at least a minute,
      so the edge cannot fire again before the next phase has run out.
      With time left it does nothing.
    */
    method CompletePhase() returns (notify: bool)
      requires Valid()
      modifies this
      ensures Valid()
      ensures notify <==> old(seconds) == 0 && old(mode) == Work
      ensures old(seconds) == 0 ==>
        && (mode, sessionsCompleted) == NextPhase(old(mode), old(sessionsCompleted))
        && seconds == Duration(mode) * 60
        && seconds >= 60
        && !isActive
      ensures old(seconds) != 0 ==>
        mode == old(mode) && seconds == old(seconds) && isActive == old(isActive) &&
        sessionsCompleted == old(sessionsCompleted)
      ensures workDuration == old(workDuration) && shortBreakDuration == old(shortBreakDuration)
      ensures longBreakDuration == old(longBreakDuration)
    {
      notify := false;
      if seconds == 0 {
        isActive := false;
        if mode == Work {
          notify := true;
          var count := sessionsCompleted + 1;
          sessionsCompleted := count;
          if count % 4 == 0 {
            mode := LongBreak;
            seconds := longBreakDuration * 60;
          } else {
            mode := ShortBreak;
            seconds := shortBreakDuration * 60;
          }
        } else {
          mode := Work;
          seconds := workDuration * 60;
        }
      }
    }

    /** Start/pause: flips `isActive` and nothing else. */
    method Toggle()
      requires Valid()
      modifies this
      ensures Valid()
      ensures isActive == !old(isActive)
      ensures mode == old(mode) && seconds == old(seconds)
      ensures sessionsCompleted == old(sessionsCompleted)
      ensures workDuration == old(workDuration) && shortBreakDuration == old(shortBreakDuration)
      ensures longBreakDuration == old(longBreakDuration)
    {
      isActive := !isActive;
    }

    /**
      Back to a paused, full work phase with no sessions counted; the
      durations stay. The result depends only on the durations, so resetting
      twice is resetting once.
    */
    method Reset()
      requires Valid()
      modifies this
      ensures Valid()
      ensures !isActive && mode == Work && sessionsCompleted == 0
      ensures seconds == workDuration * 60
      ensures workDuration == old(workDuration) && shortBreakDuration == old(shortBreakDuration)
      ensures longBreakDuration == old(longBreakDuration)
    {
      isActive := false;
      mode := Work;
      seconds := workDuration * 60;
      sessionsCompleted := 0;
    }

    /**
      A duration slider. A value outside the slider's range, or any value
      while the timer runs (the sliders are disabled then), is refused and
      changes nothing. Otherwise the duration of `target` becomes `minutes`,
      and when `target` is the phase on the clock the countdown restarts at
      the new length; the countdown of another phase is left as it is.
    */
    method SetDuration(target: Mode, minutes: int) returns (accepted: bool)
      requires Valid()
      modifies this
      ensures Valid()
      ensures accepted <==> !old(isActive) && 1 <= minutes <= MaxMinutes(target)
      ensures accepted ==> Duration(target) == minutes
      ensures forall m :: m != target ==> Duration(m) == old(Duration(m))
      ensures !accepted ==> Duration(target) == old(Duration(target))
      ensures seconds == if accepted && target == old(mode) then minutes * 60 else old(seconds)
      ensures mode == old(mode) && isActive == old(isActive)
      ensures sessionsCompleted == old(sessionsCompleted)
    {
      accepted := !isActive && 1 <= minutes <= MaxMinutes(target);
      if accepted {
        match target {
          case Work => workDuration := minutes;
          case ShortBreak => shortBreakDuration := minutes;
          case LongBreak => longBreakDuration := minutes;
        }
        if mode == target {
          seconds := minutes * 60;
        }
      }
    }
  }

  /** Resetting a second time changes nothing that the first reset set. */
  method ResetTwice(t: PomodoroTimer)
    requires t.Valid()
    modifies t
    ensures t.Valid() && !t.isActive && t.mode == Work && t.sessionsCompleted == 0
    ensures t.seconds == old(t.workDuration) * 60
    ensures t.workDuration == old(t.workDuration) && t.shortBreakDuration == old(t.shortBreakDuration)
    ensures t.longBreakDuration == old(t.longBreakDuration)
  {
    t.Reset();
    ghost var once := (t.isActive, t.mode, t.seconds, t.sessionsCompleted, t.workDuration, t.shortBreakDuration, t.longBreakDuration);
    t.Reset();
    assert (t.isActive, t.mode, t.seconds, t.sessionsCompleted, t.workDuration, t.shortBreakDuration, t.longBreakDuration) == once;
  }

  /**
    A client of the class: a fresh timer started and run down to zero ends
    its first work phase in a paused short break of five minutes.
  */
  method FirstSession() returns (t: PomodoroTimer)
    ensures t.Valid() && t.mode == ShortBreak && t.seconds == 300
    ensures !t.isActive && t.sessionsCompleted == 1
  {
    t := new PomodoroTimer();
    t.Toggle();
    while t.seconds > 0
      invariant t.Valid() && t.isActive && t.mode == Work && t.sessionsCompleted == 0
      invariant t.workDuration == 25 && t.shortBreakDuration == 5 && t.longBreakDuration == 15
      decreases t.seconds
    {
      t.Tick();
    }
    var notified := t.CompletePhase();
    assert notified;
  }
}
