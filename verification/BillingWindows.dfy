/** Billing over the window "the past N days": from its text to the queries of its steps. */
module BillingWindows {
  import opened Wrappers
  import opened Numbers
  import opened Durations
  import opened Windows
  import opened Ranges

  lemma LocalSeconds(t: Time)
    ensures t.Truncate(SECOND).Local() % SECOND == 0
  {
    var k := t.ns / SECOND + t.zone;
    assert t.ns - t.ns % SECOND == t.ns / SECOND * SECOND;
    assert t.Truncate(SECOND).Local() == SECOND * k;
    WholeSecond(k);
  }

  /** "Nd" starts on a midnight of the local clock and ends on a whole second. */
  lemma PastDaysParsed(n: nat, now: Time, rfc: string -> Option<(Time, Time)>)
    requires 1 <= n && n * DAY <= MAX_INT64 && now.zone % 60 == 0
    ensures
      var parsed := ParseWindow(Decimal(n) + "d", now, rfc);
      && parsed.Success? && !parsed.value.IsOpen() && !parsed.value.IsNegative()
      && parsed.value.start.value.Local() % DAY == 0 && parsed.value.end.value.Local() % SECOND == 0
      && parsed.value.start.value.Local() <= parsed.value.end.value.Local()
  {
    hide ParseWindowAt, PastWindow, Windows.MidnightBefore;
    PastWindowText(n, 'd', now, rfc);
    PastDaysAreWholeDays(n, now);
    SecondsKeepOrder(Decimal(n) + "d", now, rfc);
    PastWindowEnds(n, now);
    MidnightsAreWholeSeconds(PastWindow(n, 'd', now).start.value);
    LocalSeconds(now);
  }

  lemma PastWindowEnds(n: int, now: Time)
    ensures PastWindow(n, 'd', now).end == Some(now)
    ensures PastWindow(n, 'd', now).start.Some? && PastWindow(n, 'd', now).start.value.zone == now.zone
  {
  }

  /** What a step size has to meet for a window; steps of whole days and the default step meet it. */
  ghost predicate NoStepIsLate(start: int, end: int, size: int)
    requires size > 0
  {
    forall j :: 0 <= j < |Steps(start, end, size)| ==> !Late(Steps(start, end, size)[j])
  }

  lemma UsualStepsAreNotLate(start: int, end: int, size: int)
    requires size > 0 && start < end && start % DAY == 0
    requires size % DAY == 0 || size == end - start
    ensures NoStepIsLate(start, end, size)
  {
    hide Steps, Late;
    forall j | 0 <= j < |Steps(start, end, size)| ensures !Late(Steps(start, end, size)[j]) {
      if size % DAY == 0 {
        WholeDaysAreNotLate(start, end, size, j);
      } else {
        DefaultStep(start, end);
        StartsOnMidnight(Step(start, end));
      }
    }
  }

  lemma StartsOnMidnight(s: Step)
    requires s.start % DAY == 0
    ensures !Late(s)
  {
    WholeSeconds(s.start);
  }

  /**
   "Nd", parsed and cut into steps: in a whole-minute zone each local midnight from its start to its end
   (or to the end of a longer first step) is billed exactly once, and no other, if and only if no step is
   late; so with steps of any number of whole days, and with the default step.
   */
  lemma PastDaysAreBilledOnce(n: nat, now: Time, rfc: string -> Option<(Time, Time)>, size: int)
    requires 1 <= n && n * DAY <= MAX_INT64 && now.zone % 60 == 0
    ensures
      var w := ParseWindow(Decimal(n) + "d", now, rfc);
      && w.Success? && !w.value.IsOpen()
      && var start, end := w.value.start.value.Local(), w.value.end.value.Local();
         size > 0 && start < end ==>
           && ((forall m :: m % DAY == 0 ==>
                  BilledOnce(Steps(start, end, size), start, Cut(Max(end, start + size)), m))
               <==> NoStepIsLate(start, end, size))
           && (size % DAY == 0 || size == end - start ==> NoStepIsLate(start, end, size))
  {
    hide ParseWindow, Steps, Late, BilledOnce;
    PastDaysParsed(n, now, rfc);
    var w := ParseWindow(Decimal(n) + "d", now, rfc).value;
    var start, end := w.start.value.Local(), w.end.value.Local();
    if size > 0 && start < end {
      WholeSeconds(start);
      EachMidnightOnce(start, end, size);
      if size % DAY == 0 || size == end - start {
        UsualStepsAreNotLate(start, end, size);
      }
    }
  }
}
