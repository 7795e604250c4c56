/**
 * The simulated playback clock of components/MockYouTubePlayer.tsx. The
 * component keeps no state of its own beyond the timer handle: it drives the
 * currentTime and isPlaying fields of App.AppState through their setters.
 */
module Player {
  import Decimal
  import App

  /** The two pieces of App state that the player drives. */
  datatype Clock = Clock(currentTime: real, isPlaying: bool)

  /**
   * One second of wall-clock time. While paused no interval is registered, so
   * nothing happens; while playing the interval body runs the updater: at or
   * past the end it pauses and pins the time to the duration, otherwise it
   * adds one second.
   */
  function Step(c: Clock, duration: nat): (r: Clock)
    ensures !c.isPlaying ==> r == c
    ensures r.isPlaying ==> c.isPlaying && c.currentTime < duration as real && r.currentTime == c.currentTime + 1.0
    ensures c.isPlaying && !r.isPlaying ==> c.currentTime >= duration as real && r.currentTime == duration as real
  {
    if !c.isPlaying then c
    else if c.currentTime >= duration as real then Clock(duration as real, false)
    else Clock(c.currentTime + 1.0, true)
  }

  /** n seconds of wall-clock time. */
  function Run(c: Clock, duration: nat, n: nat): (r: Clock)
    ensures !c.isPlaying ==> r == c
    ensures r.isPlaying ==> c.isPlaying
    ensures c.isPlaying && !r.isPlaying ==> r.currentTime == duration as real
    decreases n
  {
    if n == 0 then c else Run(Step(c, duration), duration, n - 1)
  }

  lemma StepBeforeEnd(t: real, duration: nat)
    requires t < duration as real
    ensures Step(Clock(t, true), duration) == Clock(t + 1.0, true)
  {
  }

  /** The pause happens on the tick that finds the time already at (or past) the end. */
  lemma StepAtEnd(t: real, duration: nat)
    requires t >= duration as real
    ensures Step(Clock(t, true), duration) == Clock(duration as real, false)
  {
  }

  /** After a seek to a fractional time, a tick can carry the time past the duration by less than a second. */
  lemma StepOvershoot(duration: nat)
    ensures Step(Clock(duration as real - 0.5, true), duration).currentTime == duration as real + 0.5
  {
  }

  /** Paused, the clock does not move however long one waits. */
  lemma {:induction false} PausedStaysPut(t: real, duration: nat, n: nat)
    ensures Run(Clock(t, false), duration, n) == Clock(t, false)
  {
    if n > 0 {
      PausedStaysPut(t, duration, n - 1);
    }
  }

  /** Waiting m + n seconds is waiting m seconds, then n more. */
  lemma {:induction false} RunSplit(c: Clock, duration: nat, m: nat, n: nat)
    ensures Run(c, duration, m + n) == Run(Run(c, duration, m), duration, n)
    decreases m
  {
    if m > 0 {
      RunSplit(Step(c, duration), duration, m - 1, n);
    }
  }

  /** From a whole-second time no later than the end, the clock never passes the end. */
  lemma {:induction false} RunStaysWithin(t: int, playing: bool, duration: nat, n: nat)
    requires t <= duration
    ensures Run(Clock(t as real, playing), duration, n).currentTime <= duration as real
    decreases n
  {
    if n > 0 {
      var c := Clock(t as real, playing);
      if !playing {
        RunStaysWithin(t, playing, duration, n - 1);
      } else if t == duration {
        assert Step(c, duration) == Clock(duration as real, false);
        RunStaysWithin(duration, false, duration, n - 1);
      } else {
        assert Step(c, duration) == Clock((t + 1) as real, true);
        RunStaysWithin(t + 1, true, duration, n - 1);
      }
    }
  }

  /** Playing from second k, each tick adds one while the end is not passed. */
  lemma {:induction false} RunCountsUp(k: nat, duration: nat, j: nat)
    requires k + j <= duration
    ensures Run(Clock(k as real, true), duration, j) == Clock((k + j) as real, true)
    decreases j
  {
    if j > 0 {
      assert Step(Clock(k as real, true), duration) == Clock((k + 1) as real, true);
      RunCountsUp(k + 1, duration, j - 1);
    }
  }

  /** From 0, after d ticks the time is d and still playing; tick d + 1 pauses at d. */
  lemma PlayFromStart(duration: nat)
    ensures Run(Clock(0.0, true), duration, duration) == Clock(duration as real, true)
    ensures Run(Clock(0.0, true), duration, duration + 1) == Clock(duration as real, false)
  {
    RunCountsUp(0, duration, duration);
    RunSplit(Clock(0.0, true), duration, duration, 1);
  }

  /**
   * r reads back as n seconds: canonical minutes, a colon and exactly two
   * digits of seconds below 60.
   */
  ghost predicate ReadsAsMss(r: string, n: nat)
  {
    |r| >= 4 && r[|r| - 3] == ':'
    && Decimal.AllDigits(r[..|r| - 3]) && Decimal.Canonical(r[..|r| - 3])
    && Decimal.AllDigits(r[|r| - 2..]) && Decimal.Value(r[|r| - 2..]) < 60
    && Decimal.Value(r[..|r| - 3]) * 60 + Decimal.Value(r[|r| - 2..]) == n
  }

  /** Joining the minutes and two-digit seconds with a colon gives a string that reads back as n. */
  lemma MssFields(r: string, m: string, s: string, n: nat)
    requires r == m + ":" + s && |s| == 2
    requires Decimal.AllDigits(m) && Decimal.Canonical(m) && Decimal.AllDigits(s)
    requires Decimal.Value(s) < 60 && Decimal.Value(m) * 60 + Decimal.Value(s) == n
    ensures ReadsAsMss(r, n)
  {
    assert r[..|r| - 3] == m && r[|r| - 2..] == s;
  }

  /** formatTime: minutes unpadded, a colon, seconds as exactly two digits. */
  function FormatClock(n: nat): (r: string)
    ensures ReadsAsMss(r, n)
  {
    var mv, sv := n / 60, n % 60;
    assert mv * 60 + sv == n;
    var m := Decimal.NatToString(mv);
    var s := Decimal.PadZero(Decimal.NatToString(sv), 2);
    var r := m + ":" + s;
    MssFields(r, m, s, n);
    r
  }

  /** The interval body, fired once a second while the interval exists. */
  method Tick(app: App.AppState)
    modifies app`currentTime, app`isPlaying
    ensures Clock(app.currentTime, app.isPlaying)
            == Step(Clock(old(app.currentTime), old(app.isPlaying)), app.currentVideo.duration)
  {
    if app.isPlaying {
      if app.currentTime >= app.currentVideo.duration as real {
        app.isPlaying := false;
        app.currentTime := app.currentVideo.duration as real;
      } else {
        app.currentTime := app.currentTime + 1.0;
      }
    }
  }

  /** The play/pause button: setIsPlaying(!isPlaying). */
  method TogglePlay(app: App.AppState)
    modifies app`isPlaying
    ensures app.isPlaying == !old(app.isPlaying)
  {
    app.isPlaying := !app.isPlaying;
  }

  /** handleProgressClick: the computed time goes straight into currentTime, unclamped. */
  method HandleProgressClick(app: App.AppState, newTime: real)
    modifies app`currentTime
    ensures app.currentTime == newTime
  {
    app.currentTime := newTime;
  }
}
