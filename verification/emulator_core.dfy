/** What the stand-alone emulator and the in-process emulator window share,
    defined once: the rate-limited elevation slew applied on every display
    refresh, and the vibration log with its one-line classification and
    its 100-line bound. */
module EmulatorCore {
  import opened Numeric

  /** Differences up to this size are treated as arrived. */
  const DEAD_BAND: real := 0.01

  /** Lines a log may hold after an insert. */
  const LOG_LINE_LIMIT: nat := 100

  /** One refresh of `_update_display`, where `maxChange` is
      `max_elevation_speed * delta_time`: outside the dead band, move toward
      the target by at most `maxChange`, snapping onto it when it is that
      close. */
  function SlewStep(current: real, target: real, maxChange: real): (next: real)
    ensures Abs(target - current) <= DEAD_BAND ==> next == current
    ensures Abs(target - current) > DEAD_BAND && Abs(target - current) <= maxChange ==> next == target
    ensures Abs(target - current) > DEAD_BAND && Abs(target - current) > maxChange ==>
              Abs(next - current) == Abs(maxChange)
    ensures 0.0 <= maxChange ==>
              (current <= target ==> current <= next <= target)
              && (target <= current ==> target <= next <= current)
    ensures 0.0 <= maxChange ==> Abs(target - next) <= Abs(target - current)
  {
    if Abs(target - current) > DEAD_BAND then
      var diff := target - current;
      if Abs(diff) <= maxChange then target
      else current + (if diff > 0.0 then maxChange else -maxChange)
    else current
  }

  /** `n` refreshes with the same step. */
  function Slew(current: real, target: real, maxChange: real, n: nat): real
    decreases n
  {
    if n == 0 then current else Slew(SlewStep(current, target, maxChange), target, maxChange, n - 1)
  }

  /** The slew settles: with a positive step, after `n` refreshes the
      remaining distance is inside the dead band or has shrunk by a full
      step each time, so enough refreshes always reach the dead band or
      the target. */
  lemma SlewSettles(current: real, target: real, maxChange: real, n: nat)
    requires 0.0 < maxChange
    ensures var d := Abs(target - Slew(current, target, maxChange, n));
            d <= DEAD_BAND || d <= Abs(target - current) - n as real * maxChange
  {
    SlewSettlesBy(current, target, maxChange, n);
    TravelIsProduct(n, maxChange);
  }

  /** `n` full steps, added one at a time. */
  function Travel(n: nat, maxChange: real): real
    decreases n
  {
    if n == 0 then 0.0 else Travel(n - 1, maxChange) + maxChange
  }

  lemma {:induction false} TravelIsProduct(n: nat, maxChange: real)
    ensures Travel(n, maxChange) == n as real * maxChange
    decreases n
  {
    if n > 0 {
      TravelIsProduct(n - 1, maxChange);
      StepsAddUp(n, maxChange);
    }
  }

  lemma StepsAddUp(n: nat, maxChange: real)
    requires 0 < n
    ensures n as real * maxChange == (n - 1) as real * maxChange + maxChange
  {
  }

  lemma {:induction false} SlewSettlesBy(current: real, target: real, maxChange: real, n: nat)
    requires 0.0 < maxChange
    ensures var d := Abs(target - Slew(current, target, maxChange, n));
            d <= DEAD_BAND || d <= Abs(target - current) - Travel(n, maxChange)
    decreases n
  {
    if n > 0 {
      var next := SlewStep(current, target, maxChange);
      var dist := Abs(target - current);
      SlewSettlesBy(next, target, maxChange, n - 1);
      assert Slew(current, target, maxChange, n) == Slew(next, target, maxChange, n - 1);
      if dist <= DEAD_BAND {
        SlewInDeadBand(current, target, maxChange, n - 1);
      } else if dist <= maxChange {
        SlewAtTarget(target, maxChange, n - 1);
      } else {
        SlewStepFar(current, target, maxChange);
      }
    }
  }

  /** Far from the target, one refresh closes the distance by a full step. */
  lemma SlewStepFar(current: real, target: real, maxChange: real)
    requires 0.0 < maxChange && Abs(target - current) > DEAD_BAND && Abs(target - current) > maxChange
    ensures Abs(target - SlewStep(current, target, maxChange)) == Abs(target - current) - maxChange
  {
    if target > current {
      assert SlewStep(current, target, maxChange) == current + maxChange;
    } else {
      assert SlewStep(current, target, maxChange) == current - maxChange;
    }
  }

  lemma {:induction false} SlewAtTarget(target: real, maxChange: real, n: nat)
    ensures Slew(target, target, maxChange, n) == target
    decreases n
  {
    if n > 0 {
      SlewAtTarget(target, maxChange, n - 1);
    }
  }

  lemma {:induction false} SlewInDeadBand(current: real, target: real, maxChange: real, n: nat)
    requires Abs(target - current) <= DEAD_BAND
    ensures Slew(current, target, maxChange, n) == current
    decreases n
  {
    if n > 0 {
      SlewInDeadBand(current, target, maxChange, n - 1);
    }
  }

  /** The duration column: 0 means "indefinite", anything else a pulse count. */
  datatype DurationText = Indefinite | Pulses(count: int)

  /** One log line without its timestamp. */
  datatype LogEntry =
    | VibrationStopped
    | VibrationActive(amplitude: real, frequency: real, duration: DurationText)

  function DurationTextOf(duration: int): (t: DurationText)
    ensures t == Indefinite <==> duration == 0
    ensures t.Pulses? ==> t.count == duration
  {
    if duration == 0 then Indefinite else Pulses(duration)
  }

  /** The line `_add_vibration_log` / `_handle_vibration` writes. */
  function VibrationEntry(amplitude: real, frequency: real, duration: int): (e: LogEntry)
    ensures e == VibrationStopped <==> amplitude == 0.0 || frequency == 0.0
    ensures e.VibrationActive? ==>
              e.amplitude == amplitude && e.frequency == frequency
              && (e.duration == Indefinite <==> duration == 0)
  {
    if amplitude == 0.0 || frequency == 0.0 then VibrationStopped
    else VibrationActive(amplitude, frequency, DurationTextOf(duration))
  }

  /** The text widget's line count: each entry ends with a newline, so the
      empty line after the last one counts as well. */
  function LineCount(log: seq<LogEntry>): nat {
    |log| + 1
  }

  /** Insert at the end; if the widget then holds more than 100 lines,
      remove the first. */
  function AppendBounded(log: seq<LogEntry>, e: LogEntry): (r: seq<LogEntry>)
    ensures 0 < |r| && r[|r| - 1] == e
    ensures LineCount(log + [e]) > LOG_LINE_LIMIT ==> r == (log + [e])[1..]
    ensures LineCount(log + [e]) <= LOG_LINE_LIMIT ==> r == log + [e]
    ensures LineCount(log) <= LOG_LINE_LIMIT ==> LineCount(r) <= LOG_LINE_LIMIT
  {
    var grown := log + [e];
    if LineCount(grown) > LOG_LINE_LIMIT then grown[1..] else grown
  }

  /** A log built by repeated inserts from empty holds the most recent
      entries, in arrival order, and never more than 99 of them (the 100th
      line being the empty one). */
  function AppendAll(log: seq<LogEntry>, es: seq<LogEntry>): seq<LogEntry>
    decreases |es|
  {
    if |es| == 0 then log else AppendAll(AppendBounded(log, es[0]), es[1..])
  }

  /** `r` is what is left of `w` after dropping a prefix. */
  predicate IsSuffix(r: seq<LogEntry>, w: seq<LogEntry>) {
    |r| <= |w| && r == w[|w| - |r|..]
  }

  lemma {:induction false} AppendAllKeepsNewest(log: seq<LogEntry>, es: seq<LogEntry>)
    requires LineCount(log) <= LOG_LINE_LIMIT
    ensures LineCount(AppendAll(log, es)) <= LOG_LINE_LIMIT
    ensures IsSuffix(AppendAll(log, es), log + es)
    ensures |log| + |es| < LOG_LINE_LIMIT ==> AppendAll(log, es) == log + es
    decreases |es|
  {
    AppendAllSuffix(log, es);
    if |es| > 0 {
      var log1 := AppendBounded(log, es[0]);
      AppendAllKeepsNewest(log1, es[1..]);
      assert AppendAll(log, es) == AppendAll(log1, es[1..]);
      if |log| + |es| < LOG_LINE_LIMIT {
        assert log1 == log + [es[0]];
        assert log1 + es[1..] == log + es;
      }
    }
  }

  /** Whatever the log held, repeated inserts leave a suffix of everything
      inserted after it. */
  lemma {:induction false} AppendAllSuffix(log: seq<LogEntry>, es: seq<LogEntry>)
    ensures IsSuffix(AppendAll(log, es), log + es)
    decreases |es|
  {
    if |es| == 0 {
      assert log + es == log;
    } else {
      var grown := log + [es[0]];
      var log1 := AppendBounded(log, es[0]);
      var rest := es[1..];
      AppendAllSuffix(log1, rest);
      var r := AppendAll(log1, rest);
      assert AppendAll(log, es) == r;
      assert grown + rest == log + es;
      var k := |log1| + |rest| - |r|;
      assert r == (log1 + rest)[k..];
      if LineCount(grown) > LOG_LINE_LIMIT {
        assert log1 == grown[1..] && k + 1 == |log| + |es| - |r|;
        DropFirstSuffix(grown, rest, k);
      } else {
        assert log1 == grown && k == |log| + |es| - |r|;
      }
    }
  }

  /** Dropping the first element and then a suffix's prefix is dropping
      one more. */
  lemma DropFirstSuffix<T>(grown: seq<T>, rest: seq<T>, k: nat)
    requires 0 < |grown| && k <= |grown| - 1 + |rest|
    ensures (grown[1..] + rest)[k..] == (grown + rest)[k + 1..]
  {
    assert grown[1..] + rest == (grown + rest)[1..];
  }
}
