/** The report scheduler of the main loop: when the monitored pin's value is
    published, given the value and the time of the previous report. */
module Reporting {
  const Modulus: int := 0x1_0000_0000

  /** `uint32_t`, the type of the millisecond clock and of `last_publish`. */
  newtype u32 = x: int | 0 <= x < 0x1_0000_0000

  /** A report is due at least this often while the value is unchanged. */
  const ReportIntervalMs: u32 := 10000

  /** `now - last_publish` evaluated in `uint32_t`: the unique 32-bit amount
      that takes `last` to `now` on a clock that wraps at 2^32. */
  function Elapsed(now: u32, last: u32): (r: u32)
    ensures (last as int + r as int) % Modulus == now as int
  {
    ((now as int - last as int) % Modulus) as u32
  }

  /** No other 32-bit amount takes `last` to `now`. */
  lemma ElapsedIsUnique(now: u32, last: u32, d: u32)
    requires (last as int + d as int) % Modulus == now as int
    ensures d == Elapsed(now, last)
  {
  }

  /** When the clock has wrapped since the last report, the elapsed time is
      measured across the wrap rather than being negative. */
  lemma ElapsedAcrossWrap(now: u32, last: u32)
    requires now < last
    ensures Elapsed(now, last) as int == Modulus - (last as int - now as int)
  {
  }

  /** The loop's tracking variables: `last_pin_status` and `last_publish`. */
  datatype Tracker = Tracker(lastPinStatus: int, lastPublish: u32)

  /** Their values before the first iteration. */
  const Initial := Tracker(-1, 0)

  /** The report condition of the loop body. A report is NOT due exactly
      when the value is unchanged and `now` lies in the ReportIntervalMs
      window that starts at the last report, a window that may straddle the
      wrap of the 32-bit clock. */
  predicate Due(t: Tracker, pin: int, now: u32)
    ensures !Due(t, pin, now) <==> (pin == t.lastPinStatus &&
      var start, end := t.lastPublish as int, t.lastPublish as int + ReportIntervalMs as int;
      if end <= Modulus then start <= now as int < end
      else start <= now as int || now as int < end - Modulus)
  {
    pin != t.lastPinStatus || Elapsed(now, t.lastPublish) >= ReportIntervalMs
  }

  /** A report: the time it was made and the pin value it published. */
  datatype Report = Report(now: u32, pin: int)

  /** The tracking variables once the reports `rs` have been made from `t`. */
  function After(t: Tracker, rs: seq<Report>): Tracker
  {
    if rs == [] then t else Tracker(rs[|rs| - 1].pin, rs[|rs| - 1].now)
  }

  /** Every report was due when it was made: it published a changed value, or
      at least ReportIntervalMs had elapsed since the report before it. */
  ghost predicate Spaced(t: Tracker, rs: seq<Report>)
  {
    forall i :: 0 <= i < |rs| ==> Due(After(t, rs[..i]), rs[i].pin, rs[i].now)
  }

  /** Appending a report that is due keeps the history spaced. */
  lemma DueKeepsSpaced(t: Tracker, rs: seq<Report>, r: Report)
    requires Spaced(t, rs) && Due(After(t, rs), r.pin, r.now)
    ensures Spaced(t, rs + [r]) && After(t, rs + [r]) == Tracker(r.pin, r.now)
  {
  }

  /** Two consecutive reports of the same value are at least
      ReportIntervalMs apart on the 32-bit clock. */
  lemma SameValueReportsApart(t: Tracker, rs: seq<Report>, i: nat)
    requires Spaced(t, rs) && 0 < i < |rs| && rs[i].pin == rs[i - 1].pin
    ensures Elapsed(rs[i].now, rs[i - 1].now) >= ReportIntervalMs
  {
  }

  /** A pin read gives 0 or 1, never the initial -1, so the first iteration
      with the publish gate open always reports. */
  lemma FirstReadIsDue(pin: int, now: u32)
    requires pin == 0 || pin == 1
    ensures Due(Initial, pin, now)
  {
  }

  /** One loop iteration as the scheduler sees it: whether the client exists
      and both connection checks passed, the clock, and the pin value. */
  datatype Pass = Pass(gateOpen: bool, now: u32, pin: int)

  /** What one pass reports, given the tracking variables before it. */
  function Step(t: Tracker, p: Pass): seq<Report>
  {
    if p.gateOpen && Due(t, p.pin, p.now) then [Report(p.now, p.pin)] else []
  }

  /** The reports a sequence of iterations makes, starting from `t`: no more
      reports than passes, and each one the clock and value of an open-gate
      pass. */
  function Schedule(t: Tracker, passes: seq<Pass>): (rs: seq<Report>)
    ensures |rs| <= |passes|
    ensures forall r :: r in rs ==> exists p :: p in passes && p.gateOpen && r == Report(p.now, p.pin)
    decreases |passes|
  {
    if passes == [] then []
    else
      var first := Step(t, passes[0]);
      first + Schedule(After(t, first), passes[1..])
  }

  /** Running one more pass appends what that pass reports from the
      tracking variables the earlier passes left. */
  lemma {:induction false} ScheduleSnoc(t: Tracker, passes: seq<Pass>, p: Pass)
    ensures Schedule(t, passes + [p]) == Schedule(t, passes) + Step(After(t, Schedule(t, passes)), p)
    decreases |passes|
  {
    if passes == [] {
      assert [p][1..] == [];
    } else {
      var first := Step(t, passes[0]);
      var t' := After(t, first);
      assert (passes + [p])[0] == passes[0] && (passes + [p])[1..] == passes[1..] + [p];
      ScheduleSnoc(t', passes[1..], p);
      var tail := Schedule(t', passes[1..]);
      assert Schedule(t, passes) == first + tail;
      assert After(t, first + tail) == After(t', tail);
    }
  }

  /** Every report the loop makes was due when it was made. */
  lemma {:induction false} ScheduleSpaced(t: Tracker, ticks: seq<Pass>)
    ensures Spaced(t, Schedule(t, ticks))
    decreases |ticks|
  {
    if ticks != [] {
      var k := ticks[0];
      if k.gateOpen && Due(t, k.pin, k.now) {
        var t' := Tracker(k.pin, k.now);
        var tail := Schedule(t', ticks[1..]);
        ScheduleSpaced(t', ticks[1..]);
        var rs := [Report(k.now, k.pin)] + tail;
        forall i | 0 <= i < |rs|
          ensures Due(After(t, rs[..i]), rs[i].pin, rs[i].now)
        {
          if i > 0 {
            assert rs[..i] == [Report(k.now, k.pin)] + tail[..i - 1];
            assert After(t, rs[..i]) == After(t', tail[..i - 1]);
          }
        }
      } else {
        ScheduleSpaced(t, ticks[1..]);
      }
    }
  }

  /** A changed value is reported by the first open-gate pass that sees
      it, even when earlier open-gate passes kept reporting the old value on
      the interval and whatever closed-gate passes read; the run then
      continues from that report. */
  lemma {:induction false} ChangeReportedAtOnce(t: Tracker, ticks: seq<Pass>, j: nat)
    requires j < |ticks| && ticks[j].gateOpen && ticks[j].pin != t.lastPinStatus
    requires forall i :: 0 <= i < j && ticks[i].gateOpen ==> ticks[i].pin == t.lastPinStatus
    ensures Schedule(t, ticks) == Schedule(t, ticks[..j]) + [Report(ticks[j].now, ticks[j].pin)]
      + Schedule(Tracker(ticks[j].pin, ticks[j].now), ticks[j + 1..])
    decreases j
  {
    var r := Report(ticks[j].now, ticks[j].pin);
    var rest := Schedule(Tracker(ticks[j].pin, ticks[j].now), ticks[j + 1..]);
    if j == 0 {
      assert Step(t, ticks[0]) == [r];
      assert ticks[..0] == [];
    } else {
      var first := Step(t, ticks[0]);
      var t' := After(t, first);
      assert t'.lastPinStatus == t.lastPinStatus;
      ChangeReportedAtOnce(t', ticks[1..], j - 1);
      assert ticks[1..][j - 1 + 1..] == ticks[j + 1..];
      assert Schedule(t', ticks[1..]) == Schedule(t', ticks[1..][..j - 1]) + [r] + rest;
      assert ticks[..j][0] == ticks[0] && ticks[..j][1..] == ticks[1..][..j - 1];
      assert Schedule(t, ticks[..j]) == first + Schedule(t', ticks[1..][..j - 1]);
    }
  }

  /** While every open-gate pass sees the unchanged value less than
      ReportIntervalMs after the last report, the loop publishes nothing,
      whatever closed-gate passes read. */
  lemma {:induction false} QuietWhileUnchanged(t: Tracker, ticks: seq<Pass>)
    requires forall i :: 0 <= i < |ticks| && ticks[i].gateOpen ==>
      ticks[i].pin == t.lastPinStatus && Elapsed(ticks[i].now, t.lastPublish) < ReportIntervalMs
    ensures Schedule(t, ticks) == []
    decreases |ticks|
  {
    if ticks != [] {
      QuietWhileUnchanged(t, ticks[1..]);
    }
  }
}
