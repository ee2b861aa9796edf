/** The countdown behind an exam: remaining whole seconds from an absolute
    deadline or a fixed duration, the one-second interval that counts down and
    signals expiry, and the `H:MM:SS` / `M:SS` display (src/hooks/useExamTimer.ts).

    Timestamps are integers in milliseconds (`Date.getTime()`); parsing the ISO
    deadline string is outside the model, so an absent deadline is `None`. */
module ExamTimer {
  import opened Wrappers
  import opened Text

  const MillisPerSecond := 1000

  /** Remaining whole seconds. With a deadline: `max(0, floor((end - now) / 1000))`;
      otherwise the duration, otherwise 0. */
  function CalculateTimeLeft(expiresAt: Option<int>, durationSeconds: Option<int>, now: int): (r: int)
    ensures expiresAt.Some? ==> r >= 0
    ensures expiresAt.Some? && expiresAt.value - now < MillisPerSecond ==> r == 0
    ensures expiresAt.Some? && expiresAt.value - now >= MillisPerSecond ==>
              r * MillisPerSecond <= expiresAt.value - now < (r + 1) * MillisPerSecond
    ensures expiresAt.None? ==> r == (if durationSeconds.Some? then durationSeconds.value else 0)
  {
    match expiresAt
    case Some(end) =>
      // Dafny's division by a positive divisor rounds toward negative infinity, as Math.floor does.
      var diff := (end - now) / MillisPerSecond;
      if diff < 0 then 0 else diff
    case None =>
      if durationSeconds.Some? then durationSeconds.value else 0
  }

  /** The total captured once at start-up: `durationSeconds || timeLeft`
      (an absent or zero duration falls back to the first computed time). */
  function InitialTotal(durationSeconds: Option<int>, timeLeft: int): (r: int)
    ensures durationSeconds.Some? && durationSeconds.value != 0 ==> r == durationSeconds.value
    ensures (durationSeconds.None? || durationSeconds.value == 0) ==> r == timeLeft
  {
    if durationSeconds.Some? && durationSeconds.value != 0 then durationSeconds.value else timeLeft
  }

  /** The quotient rounded toward zero, as `Math.trunc(a / b)`. */
  function TruncQuot(a: int, b: int): (q: int)
    requires b > 0
    ensures a >= 0 ==> q >= 0
    ensures a < 0 ==> q <= 0
  {
    if a >= 0 then a / b else -((-a) / b)
  }

  /** JavaScript's `%`: the remainder of division rounded toward zero, so it
      takes the sign of the dividend. */
  function JsRem(a: int, b: int): (r: int)
    requires b > 0
    ensures a >= 0 ==> r == a % b
    ensures a < 0 ==> -b < r <= 0
    ensures a == b * TruncQuot(a, b) + r
  {
    if a >= 0 then a % b
    else
      var q := (-a) / b;
      assert b * -q == -(b * q);
      -((-a) % b)
  }

  /** Hours, minutes and seconds of `seconds` as the formatter computes them. */
  function Hours(seconds: int): int { seconds / 3600 }
  function Minutes(seconds: int): int { JsRem(seconds, 3600) / 60 }
  function Secs(seconds: int): int { JsRem(seconds, 60) }

  /** `h:mm:ss` when at least one hour remains, else `m:ss`. */
  function FormatTime(seconds: int): string
  {
    Render(Hours(seconds), Minutes(seconds), Secs(seconds))
  }

  /** The template: the hours field only when positive, minutes and seconds
      after it padded to two digits (seconds always). */
  function Render(h: int, m: int, s: int): string
  {
    if h > 0 then
      IntToString(h) + ":" + PadStart2(IntToString(m)) + ":" + PadStart2(IntToString(s))
    else
      IntToString(m) + ":" + PadStart2(IntToString(s))
  }

  /** The three fields of a non-negative time add back up to it, with minutes
      and seconds below 60. */
  lemma ClockFields(n: nat)
    ensures Hours(n) >= 0 && 0 <= Minutes(n) < 60 && 0 <= Secs(n) < 60
    ensures Hours(n) * 3600 + Minutes(n) * 60 + Secs(n) == n
    ensures Hours(n) == 0 ==> Minutes(n) * 60 + Secs(n) == n
  {
  }

  /** Splits a string at every ':' (as `String.prototype.split(':')`). */
  function SplitColons(t: string): (r: seq<string>)
    ensures |r| >= 1
    decreases |t|
  {
    if t == [] then [""]
    else
      var rest := SplitColons(t[1..]);
      if t[0] == ':' then [""] + rest else [[t[0]] + rest[0]] + rest[1..]
  }

  /** Reads a formatted time back into seconds: `m:ss` or `h:mm:ss`. */
  function ParseClock(t: string): Option<int>
  {
    ClockValue(SplitColons(t))
  }

  /** Seconds denoted by two (`m`, `ss`) or three (`h`, `mm`, `ss`) digit fields. */
  function ClockValue(f: seq<string>): Option<int>
  {
    if |f| == 2 && AllDigits(f[0]) && AllDigits(f[1]) then
      Some(ParseNat(f[0]) * 60 + ParseNat(f[1]))
    else if |f| == 3 && AllDigits(f[0]) && AllDigits(f[1]) && AllDigits(f[2]) then
      Some(ParseNat(f[0]) * 3600 + ParseNat(f[1]) * 60 + ParseNat(f[2]))
    else None
  }

  lemma {:induction false} SplitNoColon(a: string)
    requires AllDigits(a)
    ensures SplitColons(a) == [a]
    decreases |a|
  {
    if a != [] {
      assert AllDigits(a[1..]) by {
        forall i | 0 <= i < |a[1..]| ensures IsDigit(a[1..][i]) { assert a[1..][i] == a[i + 1]; }
      }
      SplitNoColon(a[1..]);
      assert [a[0]] + a[1..] == a;
    }
  }

  lemma {:induction false} SplitField(a: string, b: string)
    requires AllDigits(a)
    ensures SplitColons(a + ":" + b) == [a] + SplitColons(b)
    decreases |a|
  {
    if a == [] {
      assert a + ":" + b == [':'] + b;
      assert (a + ":" + b)[1..] == b;
    } else {
      assert AllDigits(a[1..]) by {
        forall i | 0 <= i < |a[1..]| ensures IsDigit(a[1..][i]) { assert a[1..][i] == a[i + 1]; }
      }
      assert (a + ":" + b)[1..] == a[1..] + ":" + b;
      SplitField(a[1..], b);
      assert [a[0]] + a[1..] == a;
    }
  }

  lemma SplitTwoFields(ms: string, ss: string)
    requires AllDigits(ms) && AllDigits(ss)
    ensures SplitColons(ms + ":" + ss) == [ms, ss]
  {
    SplitNoColon(ss);
    SplitField(ms, ss);
  }

  lemma SplitThreeFields(hs: string, ms: string, ss: string)
    requires AllDigits(hs) && AllDigits(ms) && AllDigits(ss)
    ensures SplitColons(hs + ":" + ms + ":" + ss) == [hs, ms, ss]
  {
    var two := ms + ":" + ss;
    SplitTwoFields(ms, ss);
    SplitField(hs, two);
    assert hs + ":" + ms + ":" + ss == hs + ":" + two;
  }

  /** Two digit fields joined by ':' split back into those fields. */
  lemma ParseTwoFields(ms: string, ss: string)
    requires AllDigits(ms) && AllDigits(ss)
    ensures ParseClock(ms + ":" + ss) == ClockValue([ms, ss])
  {
    SplitTwoFields(ms, ss);
  }

  /** Three digit fields joined by ':' split back into those fields. */
  lemma ParseThreeFields(hs: string, ms: string, ss: string)
    requires AllDigits(hs) && AllDigits(ms) && AllDigits(ss)
    ensures ParseClock(hs + ":" + ms + ":" + ss) == ClockValue([hs, ms, ss])
  {
    SplitThreeFields(hs, ms, ss);
  }

  /** The value of two parsed fields. */
  lemma TwoFieldsValue(ms: string, ss: string, m: int, s: int)
    requires AllDigits(ms) && AllDigits(ss) && ParseNat(ms) == m && ParseNat(ss) == s
    ensures ClockValue([ms, ss]) == Some(m * 60 + s)
  {
  }

  /** The value of three parsed fields. */
  lemma ThreeFieldsValue(hs: string, ms: string, ss: string, h: int, m: int, s: int)
    requires AllDigits(hs) && AllDigits(ms) && AllDigits(ss)
    requires ParseNat(hs) == h && ParseNat(ms) == m && ParseNat(ss) == s
    ensures ClockValue([hs, ms, ss]) == Some(h * 3600 + m * 60 + s)
  {
  }

  /** Formatting loses nothing: a non-negative time reads back as itself. */
  lemma FormatTimeRoundTrip(n: nat)
    ensures ParseClock(FormatTime(n)) == Some(n)
  {
    var h, m, s := Hours(n), Minutes(n), Secs(n);
    ClockFields(n);
    RenderReadBack(h, m, s);
    assert h * 3600 + m * 60 + s == n;
  }

  /** Rendered fields read back as the time they denote. */
  lemma RenderReadBack(h: nat, m: nat, s: nat)
    requires m < 60 && s < 60
    ensures ParseClock(Render(h, m, s)) == Some(h * 3600 + m * 60 + s)
  {
    var ms, ss := NatToString(m), PadStart2(NatToString(s));
    ParsePadded(s);
    ParseNatToString(m);
    if h > 0 {
      var hs, mms := NatToString(h), PadStart2(ms);
      ParseNatToString(h);
      ParsePadded(m);
      assert Render(h, m, s) == hs + ":" + mms + ":" + ss;
      ParseThreeFields(hs, mms, ss);
      ThreeFieldsValue(hs, mms, ss, h, m, s);
    } else {
      assert Render(h, m, s) == ms + ":" + ss;
      ParseTwoFields(ms, ss);
      TwoFieldsValue(ms, ss, m, s);
    }
  }

  /** The layout of the display: three fields exactly from one hour up, else
      two; the leading field is unpadded, every later field is two digits wide. */
  lemma FormatTimeLayout(n: nat)
    ensures var f := SplitColons(FormatTime(n));
            && (|f| == 3 <==> n >= 3600) && (|f| == 2 <==> n < 3600)
            && |f[|f| - 1]| == 2
            && (|f| == 3 ==> |f[1]| == 2 && f[0] == NatToString(Hours(n)))
            && (|f| == 2 ==> f[0] == NatToString(Minutes(n)))
  {
    var h, m, s := Hours(n), Minutes(n), Secs(n);
    ClockFields(n);
    var ms, ss := NatToString(m), PadStart2(NatToString(s));
    ParsePadded(s);
    PaddedWidth(s);
    if h > 0 {
      var hs, mms := NatToString(h), PadStart2(ms);
      ParsePadded(m);
      PaddedWidth(m);
      assert FormatTime(n) == hs + ":" + mms + ":" + ss;
      SplitThreeFields(hs, mms, ss);
    } else {
      assert FormatTime(n) == ms + ":" + ss;
      SplitTwoFields(ms, ss);
    }
  }

  /** The two worked examples: 125 seconds and 3605 seconds. */
  lemma FormatExamples()
    ensures FormatTime(125) == "2:05"
    ensures FormatTime(3605) == "1:00:05"
  {
  }

  /** The identity of an expiry callback held in the timer's callback slot. */
  type Callback = nat

  /** One mounted countdown. `timeLeft` is the displayed state; `running` says
      whether the one-second interval is installed; `fired` records every call
      of the expiry callback; `timeUps` counts the expiry branches taken by the
      current interval. */
  class Countdown {
    var expiresAt: Option<int>
    var durationSeconds: Option<int>
    var timeLeft: int
    const totalDuration: int
    var onTimeUp: Option<Callback>
    var running: bool
    var fired: seq<Callback>
    var timeUps: nat

    /** Expiry is signalled at most once per interval, and only after the time
        has run out; once a deadline timer has expired its interval is gone. */
    ghost predicate Valid()
      reads this
    {
      && timeUps <= 1
      && (timeUps == 1 ==> timeLeft <= 0 && (expiresAt.Some? ==> !running))
    }

    /** Mounting: the first state value and the captured total, and the interval starts. */
    constructor (expiresAt: Option<int>, durationSeconds: Option<int>, onTimeUp: Option<Callback>, now: int)
      ensures Valid()
      ensures this.expiresAt == expiresAt && this.durationSeconds == durationSeconds
      ensures timeLeft == CalculateTimeLeft(expiresAt, durationSeconds, now)
      ensures totalDuration == InitialTotal(durationSeconds, timeLeft)
      ensures this.onTimeUp == onTimeUp && running && fired == [] && timeUps == 0
    {
      this.expiresAt := expiresAt;
      this.durationSeconds := durationSeconds;
      var initial := CalculateTimeLeft(expiresAt, durationSeconds, now);
      timeLeft := initial;
      totalDuration := InitialTotal(durationSeconds, initial);
      this.onTimeUp := onTimeUp;
      running := true;
      fired := [];
      timeUps := 0;
    }

    /** A new callback is swapped into the slot; the interval is left alone. */
    method SetOnTimeUp(callback: Option<Callback>)
      modifies this`onTimeUp
      ensures onTimeUp == callback
    {
      onTimeUp := callback;
    }

    /** New props: when the deadline or the duration changed, the state is
        re-synchronised and the interval restarted; the captured total is kept. */
    method SetProps(newExpiresAt: Option<int>, newDuration: Option<int>, now: int)
      requires Valid()
      modifies this
      ensures Valid()
      ensures expiresAt == newExpiresAt && durationSeconds == newDuration
      ensures onTimeUp == old(onTimeUp) && fired == old(fired)
      ensures (newExpiresAt, newDuration) == old((expiresAt, durationSeconds)) ==>
                timeLeft == old(timeLeft) && running == old(running) && timeUps == old(timeUps)
      ensures (newExpiresAt, newDuration) != old((expiresAt, durationSeconds)) ==>
                timeLeft == CalculateTimeLeft(newExpiresAt, newDuration, now) && running && timeUps == 0
    {
      if (newExpiresAt, newDuration) != (expiresAt, durationSeconds) {
        expiresAt, durationSeconds := newExpiresAt, newDuration;
        timeLeft := CalculateTimeLeft(newExpiresAt, newDuration, now);
        running := true;
        timeUps := 0;
      }
    }

    /** Calls whatever callback the slot holds at the moment of expiry. */
    method Expire()
      modifies this`fired, this`timeUps
      ensures timeUps == old(timeUps) + 1
      ensures fired == old(fired) + (if onTimeUp.Some? then [onTimeUp.value] else [])
    {
      timeUps := timeUps + 1;
      if onTimeUp.Some? {
        fired := fired + [onTimeUp.value];
      }
    }

    /** One firing of the one-second interval at clock time `now`. */
    method Tick(now: int)
      requires Valid() && running
      modifies this
      ensures Valid()
      ensures expiresAt == old(expiresAt) && durationSeconds == old(durationSeconds) && onTimeUp == old(onTimeUp)
      // deadline: recompute from the clock; at zero stop, signalling only if time was left before
      ensures expiresAt.Some? ==>
                var left := CalculateTimeLeft(expiresAt, durationSeconds, now);
                if left <= 0 then
                  && timeLeft == 0 && !running
                  && timeUps == old(timeUps) + (if old(timeLeft) > 0 then 1 else 0)
                else timeLeft == left && running && timeUps == old(timeUps)
      // duration: count down by one, signalling on reaching zero; stop once at or below zero
      ensures expiresAt.None? ==>
                if old(timeLeft) <= 0 then timeLeft == 0 && !running && timeUps == old(timeUps)
                else timeLeft == old(timeLeft) - 1 && running
                     && timeUps == old(timeUps) + (if timeLeft == 0 then 1 else 0)
      ensures timeUps == old(timeUps) ==> fired == old(fired)
      ensures timeUps == old(timeUps) + 1 ==>
                fired == old(fired) + (if onTimeUp.Some? then [onTimeUp.value] else [])
      // the display reports time up whenever a tick signals expiry or stops the interval
      ensures timeUps == old(timeUps) + 1 ==> IsTimeUp()
      ensures !running ==> IsTimeUp()
    {
      var prev := timeLeft;
      if expiresAt.Some? {
        var left := CalculateTimeLeft(expiresAt, durationSeconds, now);
        if left <= 0 {
          running := false;
          if prev > 0 {
            Expire();
          }
          timeLeft := 0;
        } else {
          timeLeft := left;
        }
      } else {
        if prev <= 0 {
          running := false;
          timeLeft := 0;
        } else {
          var next := prev - 1;
          if next == 0 {
            Expire();
          }
          timeLeft := next;
        }
      }
    }

    /** Unmounting clears the interval. */
    method Teardown()
      modifies this`running
      ensures !running
    {
      running := false;
    }

    /** `isTimeUp`. */
    function IsTimeUp(): bool
      reads this
    {
      timeLeft == 0
    }

    /** `formattedTime`: the clock text of the time left, which reads back as
        that time whenever it is not negative. */
    function FormattedTime(): (r: string)
      reads this
      ensures timeLeft >= 0 ==> ParseClock(r) == Some(timeLeft)
    {
      if timeLeft >= 0 then FormatTimeRoundTrip(timeLeft); FormatTime(timeLeft)
      else FormatTime(timeLeft)
    }
  }

  /** A deadline timer mounted after its deadline never calls the callback:
      its first tick finds no time left before and after. */
  method ExpiredAtMount(deadline: int, now: int, callback: Callback)
    requires deadline - now < MillisPerSecond
  {
    var t := new Countdown(Some(deadline), None, Some(callback), now);
    assert t.timeLeft == 0;
    t.Tick(now + 1000);
    assert t.fired == [] && !t.running;
  }

  /** A two-second duration timer calls its callback exactly once, on the second
      tick, and stops on the third. */
  method DurationCountsDown(callback: Callback, now: int)
  {
    var t := new Countdown(None, Some(2), Some(callback), now);
    t.Tick(now + 1000);
    assert t.timeLeft == 1 && t.fired == [];
    t.Tick(now + 2000);
    assert t.timeLeft == 0 && t.fired == [callback] && t.IsTimeUp();
    t.Tick(now + 3000);
    assert t.fired == [callback] && !t.running;
  }
}
