/**
 * The countdown of the egg timer screen: the preset table, the start (or
 * restart) on a button tap, and the 0.1 s tick that counts down, redraws the
 * progress bar and the time label, and raises the alarm once at zero.
 *
 * Time is measured in whole tenths of a second, so one tick subtracts 1 and
 * the presets of 300, 420 and 720 seconds are 3000, 4200 and 7200 tenths.
 * The scheduled `Timer` is the flag `timerActive`: invalidating it clears the
 * flag, and a tick can only arrive while it is set.
 */
module EggTimer {
  import opened Wrappers
  import opened TimeLabel

  /** The preset table, in seconds. */
  const EggTimes: map<string, nat> := map["soft" := 300, "medium" := 420, "hard" := 720]

  /** The tick interval, 0.1 s, in tenths. */
  const TickTenths: nat := 1

  /** The control that sent a tap. */
  datatype Sender = SoftEggButton | MediumEggButton | HardEggButton | OtherButton

  /** The `switch sender` of the tap handler: which preset key a button stands for. */
  function EggType(sender: Sender): (k: Option<string>)
    ensures k.Some? <==> sender != OtherButton
  {
    match sender
    case SoftEggButton => Some("soft")
    case MediumEggButton => Some("medium")
    case HardEggButton => Some("hard")
    case OtherButton => None
  }

  /**
   * The duration, in tenths, that a tap on `sender` starts, or None when the
   * tap starts nothing (an unknown sender, or a key missing from the table).
   */
  function PresetTenths(sender: Sender): (d: Option<nat>)
    ensures d.Some? <==> sender != OtherButton
    ensures d.Some? ==> d.value > 0 && d.value % TenthsPerSecond == 0
  {
    match EggType(sender)
    case None => None
    case Some(key) =>
      match PresetSeconds(key)
      case None => None
      case Some(seconds) => var tenths: nat := seconds * TenthsPerSecond; Some(tenths)
  }

  /** The `eggTimes[eggType]` lookup: the preset for `key`, in seconds. */
  function PresetSeconds(key: string): (s: Option<nat>)
    ensures key == "soft" ==> s == Some(300)
    ensures key == "medium" ==> s == Some(420)
    ensures key == "hard" ==> s == Some(720)
    ensures key !in {"soft", "medium", "hard"} ==> s == None
  {
    if key in EggTimes then Some(EggTimes[key]) else None
  }

  lemma PresetTable()
    ensures PresetTenths(SoftEggButton) == Some(3000)
    ensures PresetTenths(MediumEggButton) == Some(4200)
    ensures PresetTenths(HardEggButton) == Some(7200)
    ensures PresetTenths(OtherButton) == None
  {
  }

  /** A fraction `num / den`, the value handed to the progress bar. */
  datatype Progress = Progress(num: nat, den: nat)

  /** `p` is a fraction equal to `remaining / total` (0 when nothing was started). */
  predicate Represents(p: Progress, remaining: int, total: int) {
    p.den > 0 && p.num * total == remaining * p.den
  }

  class EggTimerController {
    var totalTime: nat
    var remainingTime: int
    var timerActive: bool
    var progress: Progress
    var timeLabel: string
    /** How many times the alarm was played and the completion alert shown. */
    var completions: nat

    /**
     * The state the screen keeps: remaining time between 0 and the total,
     * positive while the timer runs; the label shows the remaining time and
     * the progress bar the fraction remaining.
     */
    ghost predicate Valid()
      reads this
    {
      0 <= remainingTime <= totalTime &&
      (timerActive ==> remainingTime > 0) &&
      timeLabel == Format(remainingTime) &&
      Represents(progress, remainingTime, totalTime)
    }

    /** The number of ticks still to come before the alarm. */
    ghost function TicksLeft(): (n: nat)
      reads this
      requires Valid()
      ensures n > 0 <==> timerActive
    {
      if timerActive then remainingTime else 0
    }

    /** The screen as it is loaded: no timer, "00:00" and an empty progress bar. */
    constructor ()
      ensures Valid()
      ensures totalTime == 0 && remainingTime == 0 && !timerActive
      ensures timeLabel == "00:00" && progress == Progress(0, 1) && completions == 0
    {
      totalTime := 0;
      remainingTime := 0;
      timerActive := false;
      progress := Progress(0, 1);
      timeLabel := "00:00";
      completions := 0;
      new;
      FormatUnderOneSecond(0);
    }

    /** Renders the remaining time into the label. */
    method UpdateTimeLabel()
      requires remainingTime >= 0
      modifies this`timeLabel
      ensures timeLabel == Format(remainingTime)
    {
      timeLabel := Format(remainingTime);
    }

    /**
     * A tap: stops any running countdown, then, when the sender is one of
     * the three egg buttons, restarts the countdown from its preset.
     */
    method EggButtonTapped(sender: Sender)
      requires Valid()
      modifies this
      ensures Valid()
      ensures completions == old(completions)
      ensures match PresetTenths(sender)
        case None =>
          !timerActive &&
          totalTime == old(totalTime) && remainingTime == old(remainingTime) &&
          progress == old(progress) && timeLabel == old(timeLabel)
        case Some(d) =>
          timerActive && TicksLeft() == d &&
          totalTime == d && remainingTime == d &&
          progress == Progress(1, 1) && timeLabel == Format(d)
    {
      timerActive := false;
      var eggType := EggType(sender);
      if eggType.None? {
        return;
      }
      var seconds := PresetSeconds(eggType.value);
      if seconds.None? {
        return;
      }
      var duration := seconds.value * TenthsPerSecond;
      totalTime := duration;
      remainingTime := duration;
      progress := Progress(1, 1);
      UpdateTimeLabel();
      timerActive := true;
    }

    /**
     * One tick of the running timer: one tenth less; on reaching zero the
     * timer stops, the bar empties and the alarm fires, and the label is left
     * as it was; otherwise bar and label show the new remaining time.
     */
    method UpdateTimer()
      requires Valid() && timerActive
      modifies this
      ensures Valid()
      ensures remainingTime == old(remainingTime) - TickTenths
      ensures totalTime == old(totalTime)
      ensures TicksLeft() == old(TicksLeft()) - 1
      ensures timerActive <==> remainingTime > 0
      ensures remainingTime <= 0 ==>
        remainingTime == 0 && progress == Progress(0, 1) &&
        timeLabel == old(timeLabel) == "00:00" &&
        completions == old(completions) + 1
      ensures remainingTime > 0 ==>
        0 < progress.num < progress.den &&
        progress == Progress(remainingTime, totalTime) &&
        timeLabel == Format(remainingTime) &&
        completions == old(completions)
    {
      remainingTime := remainingTime - TickTenths;
      if remainingTime <= 0 {
        assert remainingTime == 0 && old(remainingTime) == 1;
        timerActive := false;
        progress := Progress(0, 1);
        FormatUnderOneSecond(1);
        completions := completions + 1;
        return;
      }
      progress := Progress(remainingTime, totalTime);
      UpdateTimeLabel();
    }

    /**
     * The repeating timer firing until it is invalidated: a run with `n`
     * tenths remaining ends after exactly `n` ticks, with one alarm, an empty
     * bar and the label "00:00".
     */
    method RunUntilAlarm() returns (ticks: nat)
      requires Valid() && timerActive
      modifies this
      ensures Valid() && !timerActive
      ensures ticks == old(remainingTime)
      ensures remainingTime == 0 && totalTime == old(totalTime)
      ensures completions == old(completions) + 1
      ensures progress == Progress(0, 1) && timeLabel == "00:00"
    {
      ticks := 0;
      while timerActive
        invariant Valid()
        invariant totalTime == old(totalTime)
        invariant ticks + TicksLeft() == old(remainingTime)
        invariant completions == old(completions) + (if timerActive then 0 else 1)
        invariant !timerActive ==> remainingTime == 0 && progress == Progress(0, 1) && timeLabel == "00:00"
        decreases TicksLeft()
      {
        UpdateTimer();
        ticks := ticks + 1;
      }
    }
  }

  /**
   * The whole life of a medium egg on a freshly loaded screen: 420 seconds
   * take 4200 ticks, the alarm fires once and the label ends at "00:00".
   */
  method BoilMediumEgg() returns (ticks: nat, shown: string, alarms: nat)
    ensures ticks == 4200 && shown == "00:00" && alarms == 1
  {
    var screen := new EggTimerController();
    PresetTable();
    screen.EggButtonTapped(MediumEggButton);
    ticks := screen.RunUntilAlarm();
    shown := screen.timeLabel;
    alarms := screen.completions;
  }
}
