/**
 * The arithmetic of the client's countdown display: the time left until a
 * slot ends, its split into minutes and seconds, the "low time" flag, the
 * zero-padded `MM:SS` text and the decision to call `onExpire` on a tick.
 * Times are integer milliseconds.
 */
module CountdownTimer {
  import opened Wrappers
  import opened JsText

  const MS_PER_MINUTE: nat := 60000
  const MS_PER_SECOND: nat := 1000

  /** `Math.max(0, endTime - now)`. */
  function TimeLeft(endTime: int, now: int): nat
  {
    if endTime - now > 0 then endTime - now else 0
  }

  /** `Math.floor(timeLeft / 60000)`. */
  function Minutes(timeLeft: nat): nat
  {
    timeLeft / MS_PER_MINUTE
  }

  /** `Math.floor((timeLeft % 60000) / 1000)`. */
  function Seconds(timeLeft: nat): nat
  {
    (timeLeft % MS_PER_MINUTE) / MS_PER_SECOND
  }

  /** `minutes === 0 && seconds < 60`. */
  predicate IsLowTime(timeLeft: nat)
  {
    Minutes(timeLeft) == 0 && Seconds(timeLeft) < 60
  }

  /** The rendered text: minutes and seconds, each `padStart(2, '0')`, joined by ':'. */
  function Display(timeLeft: nat): string
  {
    PadStart(NatToString(Minutes(timeLeft)), 2, '0') + ":" + PadStart(NatToString(Seconds(timeLeft)), 2, '0')
  }

  /** What one tick of the one-second interval does: the new time left, and whether `onExpire` is called. */
  datatype Tick = Tick(remaining: nat, callsOnExpire: bool)

  function OnTick(endTime: int, now: int, hasOnExpire: bool): Tick
  {
    var remaining := TimeLeft(endTime, now);
    Tick(remaining, remaining <= 0 && hasOnExpire)
  }

  /** The time left is the positive part of `endTime - now`. */
  lemma TimeLeftIsClamped(endTime: int, now: int)
    ensures now <= endTime ==> TimeLeft(endTime, now) == endTime - now
    ensures endTime <= now ==> TimeLeft(endTime, now) == 0
    ensures TimeLeft(endTime, now) >= endTime - now
  {
  }

  /** Seconds stay below a minute, and minutes and seconds pin the time left to a one-second window. */
  lemma SplitIsExact(timeLeft: nat)
    ensures Seconds(timeLeft) < 60
    ensures Minutes(timeLeft) * MS_PER_MINUTE + Seconds(timeLeft) * MS_PER_SECOND <= timeLeft
    ensures timeLeft < Minutes(timeLeft) * MS_PER_MINUTE + Seconds(timeLeft) * MS_PER_SECOND + MS_PER_SECOND
  {
    var r := timeLeft % MS_PER_MINUTE;
    assert timeLeft == Minutes(timeLeft) * MS_PER_MINUTE + r;
    assert r == Seconds(timeLeft) * MS_PER_SECOND + r % MS_PER_SECOND;
  }

  /** The `seconds < 60` half of the low-time test never matters: it is low time exactly when under a minute is left. */
  lemma LowTimeIsLastMinute(timeLeft: nat)
    ensures IsLowTime(timeLeft) <==> Minutes(timeLeft) == 0
    ensures IsLowTime(timeLeft) <==> timeLeft < MS_PER_MINUTE
  {
    SplitIsExact(timeLeft);
  }

  /**
   * The text is the two padded numbers joined by ':', at least "MM:SS" long:
   * the minutes are padded to two digits but never cut, the seconds are
   * exactly two digits, and reading either part back with `parseInt`
   * recovers the number shown.
   */
  lemma DisplayShape(timeLeft: nat)
    ensures var mm := PadStart(NatToString(Minutes(timeLeft)), 2, '0');
      var ss := PadStart(NatToString(Seconds(timeLeft)), 2, '0');
      && Display(timeLeft) == mm + ":" + ss
      && |mm| >= 2 && |ss| == 2 && |Display(timeLeft)| >= 5
      && ParseInt(mm) == Some(Minutes(timeLeft))
      && ParseInt(ss) == Some(Seconds(timeLeft))
  {
    SplitIsExact(timeLeft);
    ParsePadded(Minutes(timeLeft), 2);
    ParsePadded(Seconds(timeLeft), 2);
  }

  /** `onExpire` is called on a tick exactly when it is given and the end time has been reached. */
  lemma ExpiresOnlyWhenDue(endTime: int, now: int, hasOnExpire: bool)
    ensures OnTick(endTime, now, hasOnExpire).callsOnExpire <==> hasOnExpire && endTime <= now
  {
  }
}
