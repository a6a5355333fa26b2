/**
 * Stall: a deadline in seconds and counts from a number of microseconds, and a loop that polls a clock
 * which moves on between its reads. The clock's time is counted in counts: its tick counter is the time
 * divided by the frequency and its counter the remainder.
 */
module StallTimer {
  import opened Words

  const MICROSCALE: nat := 1000000

  function Tick(time: nat, frequency: nat): nat
    requires frequency > 0
  {
    time / frequency
  }

  function Counter(time: nat, frequency: nat): nat
    requires frequency > 0
  {
    time % frequency
  }

  /** The counts Stall waits for each microsecond beyond whole seconds. */
  function CountsPerMicrosecond(frequency: nat): nat {
    if frequency >= MICROSCALE then frequency / MICROSCALE else 1
  }

  /** What Stall adds to the counter, for the microseconds beyond whole seconds. */
  function Extra(us: nat, frequency: nat): nat {
    (us % MICROSCALE) * CountsPerMicrosecond(frequency)
  }

  /** A deadline as one time. */
  function TimeOf(second: nat, fraction: nat, frequency: nat): nat {
    second * frequency + fraction
  }

  /**
   * The deadline differs from the exact request, in millionths of a count, by the microseconds beyond whole
   * seconds times what counting whole counts for each of them adds.
   */
  ghost predicate Meets(us: nat, frequency: nat, time: nat, stopSecond: nat, stopFraction: nat) {
    MICROSCALE * TimeOf(stopSecond, stopFraction, frequency) ==
      MICROSCALE * time + us * frequency
      + (us % MICROSCALE) * (MICROSCALE * CountsPerMicrosecond(frequency) - frequency)
  }

  /** The deadline of Stall, from a reading of the clock. */
  method Deadline(microSeconds: nat, frequency: nat, tick: nat, counter: nat)
    returns (stopSecond: nat, stopFraction: nat)
    requires 0 < frequency <= 0x8000_0000_0000_0000 && counter < frequency
    requires tick + microSeconds / MICROSCALE + 1 < TWO64
    ensures Meets(microSeconds, frequency, TimeOf(tick, counter, frequency), stopSecond, stopFraction)
    ensures stopFraction < frequency <==>
              counter + Extra(microSeconds, frequency) < 2 * frequency
    ensures stopFraction >= frequency ==> stopSecond == tick + microSeconds / MICROSCALE + 1
    ensures stopFraction < TWO64 && stopSecond < TWO64
    ensures tick + microSeconds / MICROSCALE <= stopSecond <= tick + microSeconds / MICROSCALE + 1
  {
    hide CountsPerMicrosecond, TimeOf, Meets;
    RestIsSmall(microSeconds, frequency);
    Expand(microSeconds, frequency, tick, counter);
    var extra := (microSeconds % MICROSCALE) * CountsPerMicrosecond(frequency);
    assert extra == Extra(microSeconds, frequency);
    hide Extra;
    var whole := microSeconds / MICROSCALE;
    ghost var reach := counter + extra;
    assert reach < TWO64;
    stopFraction := (counter + extra) % TWO64;
    stopSecond := (tick + whole) % TWO64;
    assert stopFraction == reach && stopSecond == tick + whole;
    if stopFraction >= frequency {
      Carry(microSeconds, frequency, TimeOf(tick, counter, frequency), stopSecond, stopFraction);
      stopFraction := stopFraction - frequency;
      stopSecond := (stopSecond + 1) % TWO64;
    }
  }

  lemma Carry(us: nat, frequency: nat, time: nat, second: nat, fraction: nat)
    requires fraction >= frequency
    ensures Meets(us, frequency, time, second + 1, fraction - frequency) <==>
              Meets(us, frequency, time, second, fraction)
  {
  }

  lemma MulMonotone(a: nat, b: nat, k: nat)
    requires a <= b
    ensures a * k <= b * k
  {
  }

  /** Less than a second's worth of microseconds is less than a second's worth of counts. */
  lemma RestIsSmall(us: nat, frequency: nat)
    ensures frequency >= MICROSCALE ==> Extra(us, frequency) < frequency
    ensures frequency < MICROSCALE ==> Extra(us, frequency) == us % MICROSCALE
  {
    if frequency >= MICROSCALE {
      var k := frequency / MICROSCALE;
      MulMonotone(us % MICROSCALE, MICROSCALE - 1, k);
      assert k * MICROSCALE <= frequency && k > 0;
      assert (MICROSCALE - 1) * k == k * MICROSCALE - k;
    }
  }

  lemma Expand(us: nat, frequency: nat, tick: nat, counter: nat)
    ensures Meets(us, frequency, TimeOf(tick, counter, frequency),
                  tick + us / MICROSCALE, counter + Extra(us, frequency))
  {
  }

  /**
   * From one megahertz up, one subtraction normalises the deadline, which is never later than the exact
   * request and is early by (us mod 10^6) (frequency mod 10^6) millionths of a count: not at all exactly when
   * the request is in whole seconds or the frequency in whole megahertz.
   */
  lemma DeadlineIsEarlyBy(us: nat, frequency: nat, time: nat, stopSecond: nat, stopFraction: nat)
    requires frequency >= MICROSCALE
    requires Meets(us, frequency, time, stopSecond, stopFraction)
    ensures var early := MICROSCALE * time + us * frequency - MICROSCALE * TimeOf(stopSecond, stopFraction, frequency);
            && early == (us % MICROSCALE) * (frequency % MICROSCALE)
            && early >= 0
            && (early == 0 <==> us % MICROSCALE == 0 || frequency % MICROSCALE == 0)
  {
  }

  /** The millionths of a count by which the deadline is late, for a frequency that is not a megahertz. */
  function Late(us: nat, frequency: nat): nat {
    if frequency >= MICROSCALE then 0 else (us % MICROSCALE) * (MICROSCALE - frequency)
  }

  /** Below one megahertz the deadline is late by exactly that, and not at all exactly for whole seconds. */
  lemma DeadlineIsLateBelowMegahertz(us: nat, frequency: nat, time: nat, stopSecond: nat, stopFraction: nat)
    requires 0 < frequency < MICROSCALE
    requires Meets(us, frequency, time, stopSecond, stopFraction)
    ensures MICROSCALE * TimeOf(stopSecond, stopFraction, frequency) ==
              MICROSCALE * time + us * frequency + Late(us, frequency)
    ensures Late(us, frequency) == 0 <==> us % MICROSCALE == 0
  {
    var rest := us % MICROSCALE;
    if rest > 0 {
      assert rest * (MICROSCALE - frequency) > 0;
    }
  }

  /** One subtraction normalises every request exactly from one megahertz, or from a low enough counter. */
  lemma OneSubtractionNormalises(frequency: nat, counter: nat)
    requires frequency > 0 && counter < frequency
    ensures (forall us: nat :: counter + Extra(us, frequency) < 2 * frequency)
              <==> frequency >= MICROSCALE || counter + MICROSCALE - 1 < 2 * frequency
  {
    var greatest: nat := MICROSCALE - 1;
    RestIsSmall(greatest, frequency);
    assert greatest % MICROSCALE == greatest;
    forall us: nat
      ensures frequency >= MICROSCALE || counter + greatest < 2 * frequency ==>
                counter + Extra(us, frequency) < 2 * frequency
    {
      RestIsSmall(us, frequency);
      assert us % MICROSCALE <= greatest;
    }
    assert frequency < MICROSCALE ==> Extra(greatest, frequency) == greatest;
  }

  // ---- The polling loop ----------------------------------------------------------------------

  /** The times at which the loop reads the clock do not go back. */
  ghost predicate Monotone(times: seq<nat>) {
    forall i, j :: 0 <= i < j < |times| ==> times[i] <= times[j]
  }

  /** The time a deadline stands for. A fraction of a second or more is only met by the next second. */
  function StopTime(stopSecond: nat, stopFraction: nat, frequency: nat): nat {
    TimeOf(stopSecond, if stopFraction < frequency then stopFraction else frequency, frequency)
  }

  lemma StopTimeIsBelow(stopSecond: nat, stopFraction: nat, frequency: nat)
    ensures StopTime(stopSecond, stopFraction, frequency) <= TimeOf(stopSecond, stopFraction, frequency)
  {
  }

  /** When the deadline has passed, as the two counters show it. */
  lemma Passed(time: nat, stopSecond: nat, stopFraction: nat, frequency: nat)
    requires frequency > 0
    ensures time >= StopTime(stopSecond, stopFraction, frequency) <==>
              Tick(time, frequency) > stopSecond
              || (Tick(time, frequency) == stopSecond && Counter(time, frequency) >= stopFraction)
  {
    var t, c := Tick(time, frequency), Counter(time, frequency);
    assert time == t * frequency + c && c < frequency;
    hide Tick, Counter;
    WholeSeconds(t, stopSecond, frequency);
  }

  lemma WholeSeconds(s: nat, t: nat, frequency: nat)
    ensures s < t ==> s * frequency + frequency <= t * frequency
    ensures t < s ==> t * frequency + frequency <= s * frequency
  {
    if s < t {
      MulMonotone(s + 1, t, frequency);
    } else if t < s {
      MulMonotone(t + 1, s, frequency);
    }
  }

  lemma TicksOn(a: nat, b: nat, frequency: nat)
    requires frequency > 0 && a <= b
    ensures Tick(a, frequency) <= Tick(b, frequency)
    ensures Tick(a, frequency) == Tick(b, frequency) ==> Counter(a, frequency) <= Counter(b, frequency)
  {
    var s, t := Tick(a, frequency), Tick(b, frequency);
    assert a == s * frequency + Counter(a, frequency) && b == t * frequency + Counter(b, frequency);
    assert Counter(a, frequency) < frequency && Counter(b, frequency) < frequency;
    hide Tick, Counter;
    WholeSeconds(s, t, frequency);
  }

  /**
   * One iteration that does not return, with its reads at times a, b and c: the deadline had not passed at a,
   * or the tick counter has gone past the stop second by c.
   */
  lemma NotYet(a: nat, b: nat, c: nat, stopSecond: nat, stopFraction: nat, frequency: nat)
    requires frequency > 0 && a <= b <= c
    requires Tick(a, frequency) <= stopSecond
    requires Tick(b, frequency) != stopSecond || Counter(c, frequency) < stopFraction
    ensures a >= StopTime(stopSecond, stopFraction, frequency) ==> Tick(c, frequency) > stopSecond
  {
    hide Tick, Counter, StopTime;
    Passed(a, stopSecond, stopFraction, frequency);
    TicksOn(a, b, frequency);
    TicksOn(b, c, frequency);
    TicksOn(a, c, frequency);
  }

  /** The tick counter as a read at a time shows it while some ticks are pending. */
  function Shown(time: nat, pending: nat, frequency: nat): int
    requires frequency > 0
  {
    Tick(time, frequency) - pending
  }

  /**
   * The two ways an iteration returns: the deadline has passed at the last read. That the tick counter lags behind
   * does not matter.
   */
  lemma Returns(b: nat, pending: nat, c: nat, stopSecond: nat, stopFraction: nat, frequency: nat)
    requires frequency > 0 && b <= c
    ensures Shown(b, pending, frequency) > stopSecond ==> b >= StopTime(stopSecond, stopFraction, frequency)
    ensures Shown(b, pending, frequency) == stopSecond && Counter(c, frequency) >= stopFraction ==>
              c >= StopTime(stopSecond, stopFraction, frequency)
  {
    hide Tick, Counter, StopTime;
    Passed(b, stopSecond, stopFraction, frequency);
    Passed(c, stopSecond, stopFraction, frequency);
    TicksOn(b, c, frequency);
  }

  /** The reads of iteration i and the one after them find no tick pending. */
  predicate UpToDate(pending: seq<nat>, i: nat)
    requires 3 * i + 3 < |pending|
  {
    pending[3 * i] == pending[3 * i + 1] == pending[3 * i + 2] == pending[3 * i + 3] == 0
  }

  /**
   * The loop of Stall against the clock: three reads an iteration, of the tick counter twice and then of the
   * counter, with as many ticks pending at each as may be. It reports the iteration and the read at which it
   * returned, unless the reads run out. It returns only after the deadline, no later than the first iteration that
   * starts with the tick counter past the stop second and, where no tick is pending, no later than one iteration
   * after the first that starts with the deadline passed.
   */
  method Poll(stopSecond: nat, stopFraction: nat, frequency: nat, times: seq<nat>, pending: seq<nat>)
    returns (done: bool, iteration: nat, at: nat)
    requires frequency > 0 && Monotone(times) && |pending| == |times|
    ensures done ==> at < |times| && iteration == at / 3 && times[at] >= StopTime(stopSecond, stopFraction, frequency)
    ensures forall i {:trigger times[3 * i]} ::
              0 <= i && 3 * i + 2 < |times| && Shown(times[3 * i], pending[3 * i], frequency) > stopSecond ==>
                done && iteration <= i
    ensures forall i {:trigger times[3 * i]} ::
              0 <= i && 3 * i + 5 < |times| && UpToDate(pending, i)
              && times[3 * i] >= StopTime(stopSecond, stopFraction, frequency) ==>
                done && iteration <= i + 1
  {
    hide Tick, Counter, StopTime;
    iteration := 0;
    while 3 * iteration + 2 < |times|
      invariant 3 * iteration <= |times|
      invariant forall i {:trigger times[3 * i]} ::
        0 <= i < iteration ==> Shown(times[3 * i], pending[3 * i], frequency) <= stopSecond
      invariant forall i {:trigger times[3 * i]} ::
        0 <= i < iteration - 1 && UpToDate(pending, i) ==> times[3 * i] < StopTime(stopSecond, stopFraction, frequency)
      invariant iteration > 0 && 3 * iteration < |times| && UpToDate(pending, iteration - 1)
                && times[3 * (iteration - 1)] >= StopTime(stopSecond, stopFraction, frequency) ==>
        Tick(times[3 * iteration - 1], frequency) > stopSecond
    {
      ghost var a, b, c := times[3 * iteration], times[3 * iteration + 1], times[3 * iteration + 2];
      Returns(a, pending[3 * iteration], c, stopSecond, stopFraction, frequency);
      Returns(b, pending[3 * iteration + 1], c, stopSecond, stopFraction, frequency);
      if iteration > 0 {
        TicksOn(times[3 * iteration - 1], a, frequency);
      }
      if Shown(times[3 * iteration], pending[3 * iteration], frequency) > stopSecond {
        return true, iteration, 3 * iteration;
      }
      if Shown(times[3 * iteration + 1], pending[3 * iteration + 1], frequency) == stopSecond
         && Counter(times[3 * iteration + 2], frequency) >= stopFraction {
        return true, iteration, 3 * iteration + 2;
      }
      if pending[3 * iteration] == pending[3 * iteration + 1] == 0 {
        NotYet(a, b, c, stopSecond, stopFraction, frequency);
      }
      iteration := iteration + 1;
    }
    return false, iteration, 0;
  }

  /** A deadline that one subtraction has not normalised is met no earlier than the request. */
  lemma UnnormalisedIsNotEarly(us: nat, frequency: nat, tick: nat, counter: nat, stopFraction: nat)
    requires counter < frequency <= stopFraction
    ensures MICROSCALE * StopTime(tick + us / MICROSCALE + 1, stopFraction, frequency) >=
              MICROSCALE * TimeOf(tick, counter, frequency) + us * frequency
  {
    var whole, rest := us / MICROSCALE, us % MICROSCALE;
    assert us * frequency == whole * frequency * MICROSCALE + rest * frequency;
    MulMonotone(rest, MICROSCALE, frequency);
    assert (tick + whole + 1) * frequency == tick * frequency + whole * frequency + frequency;
  }

  /** A tick counter that `pending` ticks have yet to reach, or that is ahead, shows a time that many seconds off. */
  lemma PendingTicks(time: nat, pending: int, frequency: nat)
    requires frequency > 0 && pending <= Tick(time, frequency)
    ensures TimeOf(Tick(time, frequency) - pending, Counter(time, frequency), frequency) == time - pending * frequency
    ensures pending * frequency <= time
  {
    var tick := Tick(time, frequency);
    assert time == tick * frequency + Counter(time, frequency);
    assert (tick - pending) * frequency == tick * frequency - pending * frequency;
    assert (tick - pending) * frequency >= 0;
  }

  /**
   * Stall, from the time at which it reads the counter, and the times of the loop's reads after that, each with its
   * pending ticks. The tick counter read after the counter need not belong to that time. A wrap of the counter before
   * the reading leaves a tick pending that the tick counter does not show yet; a tick that another processor takes
   * between the two reads puts it ahead, and `pending` is negative. Stall returns at or after the requested time, but
   * for what dropping the remainder of the frequency loses, and a whole second earlier each pending tick or later each
   * tick ahead. Where the loop finds no tick pending it returns at most one iteration after the first that starts with
   * the requested time, so displaced, passed, and below one megahertz what counting whole counts adds; in any case, no
   * later than the first iteration that is shown a second past the request.
   */
  method Stall(microSeconds: nat, frequency: nat, time: nat, pending: int, times: seq<nat>, behind: seq<nat>)
    returns (done: bool, at: nat)
    requires 0 < frequency <= 0x8000_0000_0000_0000 && pending <= Tick(time, frequency)
    requires Tick(time, frequency) - pending + microSeconds / MICROSCALE + 1 < TWO64
    requires Monotone(times) && |behind| == |times|
    ensures microSeconds == 0 ==> done
    ensures microSeconds > 0 && done ==>
              at < |times|
              && MICROSCALE * times[at] >=
                   MICROSCALE * (time - pending * frequency) + microSeconds * frequency
                   - Dropped(microSeconds, frequency)
    ensures microSeconds > 0 ==>
              forall i {:trigger times[3 * i]} ::
                0 <= i && 3 * i + 5 < |times| && UpToDate(behind, i)
                && MICROSCALE * times[3 * i] >=
                     MICROSCALE * (time - pending * frequency) + microSeconds * frequency
                     + Late(microSeconds, frequency) ==>
                  done && at / 3 <= i + 1
    ensures microSeconds > 0 ==>
              forall i {:trigger times[3 * i]} ::
                0 <= i && 3 * i + 2 < |times|
                && Shown(times[3 * i], behind[3 * i], frequency) >
                     Tick(time, frequency) - pending + microSeconds / MICROSCALE + 1 ==>
                  done && at / 3 <= i
  {
    if microSeconds == 0 {
      return true, 0;
    }
    var counter := Counter(time, frequency);
    var tick: nat := Tick(time, frequency) - pending;
    PendingTicks(time, pending, frequency);
    hide TimeOf, CountsPerMicrosecond, Monotone, Meets, Extra, Tick, Dropped, Late;
    var stopSecond, stopFraction := Deadline(microSeconds, frequency, tick, counter);
    StopsInTime(microSeconds, frequency, tick, counter, stopSecond, stopFraction);
    var iteration;
    done, iteration, at := Poll(stopSecond, stopFraction, frequency, times, behind);
  }

  /** The millionths of a count Stall may return early by. */
  function Dropped(us: nat, frequency: nat): nat {
    if frequency >= MICROSCALE then (us % MICROSCALE) * (frequency % MICROSCALE) else 0
  }

  lemma StopsInTime(us: nat, frequency: nat, tick: nat, counter: nat, stopSecond: nat, stopFraction: nat)
    requires counter < frequency && Meets(us, frequency, TimeOf(tick, counter, frequency), stopSecond, stopFraction)
    requires stopFraction >= frequency ==> stopSecond == tick + us / MICROSCALE + 1
    requires stopFraction < frequency <==> counter + Extra(us, frequency) < 2 * frequency
    ensures MICROSCALE * StopTime(stopSecond, stopFraction, frequency) >=
              MICROSCALE * TimeOf(tick, counter, frequency) + us * frequency - Dropped(us, frequency)
    ensures MICROSCALE * StopTime(stopSecond, stopFraction, frequency) <=
              MICROSCALE * TimeOf(tick, counter, frequency) + us * frequency + Late(us, frequency)
  {
    hide Meets, Extra, TimeOf;
    RestIsSmall(us, frequency);
    if stopFraction >= frequency {
      UnnormalisedIsNotEarly(us, frequency, tick, counter, stopFraction);
      StopTimeIsBelow(stopSecond, stopFraction, frequency);
      DeadlineIsLateBelowMegahertz(us, frequency, TimeOf(tick, counter, frequency), stopSecond, stopFraction);
    } else if frequency >= MICROSCALE {
      DeadlineIsEarlyBy(us, frequency, TimeOf(tick, counter, frequency), stopSecond, stopFraction);
    } else {
      DeadlineIsLateBelowMegahertz(us, frequency, TimeOf(tick, counter, frequency), stopSecond, stopFraction);
    }
  }
}
