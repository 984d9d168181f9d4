/** The voting deadline clock: whether voting is closed, and the countdown,
    which splits the time left into the coarsest unit that applies (days and
    hours, else hours and minutes, else minutes). The label prints the first
    two cases in the same shape, so it cannot tell days from hours. Times are
    milliseconds since the epoch; `now` is the value the view last
    refreshed. */
module Clock {

  /** 2025-12-24T16:30:00+07:00 */
  const VotingDeadline: int := 1766568600000

  const MsPerMinute: int := 60000
  const MinutesPerHour: int := 60
  const MinutesPerDay: int := 1440

  const ClosedText: string := "Voting ditutup"
  const LeftPrefix: string := "Sisa "

  /** `isVotingClosed` */
  predicate IsVotingClosed(now: int, deadline: int) {
    now >= deadline
  }

  datatype Countdown =
    | Closed
    | DaysLeft(days: nat, hours: nat)
    | HoursLeft(hours: nat, minutes: nat)
    | MinutesLeft(minutes: nat)

  /** Whole minutes left; the source floors a positive quotient, which is
      what `/` does on a positive dividend. */
  function WholeMinutes(deadline: int, now: int): int {
    (deadline - now) / MsPerMinute
  }

  /** `deadlineCountdown`, before it is turned into text. */
  function DeadlineCountdown(deadline: int, now: int): (c: Countdown)
    ensures c.Closed? <==> IsVotingClosed(now, deadline)
    ensures c.DaysLeft? ==>
              c.days >= 1 && c.hours < 24 &&
              c.days * MinutesPerDay + c.hours * MinutesPerHour <= WholeMinutes(deadline, now) <
              c.days * MinutesPerDay + (c.hours + 1) * MinutesPerHour
    ensures c.HoursLeft? ==>
              1 <= c.hours < 24 && c.minutes < 60 &&
              WholeMinutes(deadline, now) == c.hours * MinutesPerHour + c.minutes
    ensures c.MinutesLeft? ==> 0 <= WholeMinutes(deadline, now) == c.minutes < 60
  {
    var diff := deadline - now;
    if diff <= 0 then Closed
    else
      var totalMinutes := diff / MsPerMinute;
      var days := totalMinutes / MinutesPerDay;
      var hours := (totalMinutes % MinutesPerDay) / MinutesPerHour;
      var minutes := totalMinutes % MinutesPerHour;
      MinutesSplit(totalMinutes);
      if days > 0 then DaysLeft(days, hours)
      else if hours > 0 then HoursLeft(hours, minutes)
      else MinutesLeft(minutes)
  }

  /** Days, hours of the day and minutes of the hour add back up to the
      whole minutes. */
  lemma MinutesSplit(m: nat)
    ensures (m % MinutesPerDay) / MinutesPerHour < 24
    ensures m == (m / MinutesPerDay) * MinutesPerDay
                 + ((m % MinutesPerDay) / MinutesPerHour) * MinutesPerHour
                 + m % MinutesPerHour
  {
    var d, r := m / MinutesPerDay, m % MinutesPerDay;
    assert m == d * MinutesPerDay + r;
    var h, s := r / MinutesPerHour, r % MinutesPerHour;
    assert r == h * MinutesPerHour + s;
    assert m == (d * 24 + h) * MinutesPerHour + s;
    assert m % MinutesPerHour == s;
  }

  /** Worked cases: 2 days 3 hours ahead shows days and hours, 45 minutes
      ahead shows minutes only, the deadline itself shows closed. */
  lemma CountdownExamples(deadline: int)
    ensures DeadlineCountdown(deadline, deadline - (2 * 1440 + 3 * 60) * MsPerMinute) == DaysLeft(2, 3)
    ensures DeadlineCountdown(deadline, deadline - 45 * MsPerMinute) == MinutesLeft(45)
    ensures DeadlineCountdown(deadline, deadline) == Closed
  {
  }

  function DigitChar(d: nat): char
    requires d < 10
  {
    "0123456789"[d]
  }

  function DigitValue(c: char): int {
    (c as int) - ('0' as int)
  }

  /** Decimal digits of `n`, as a template literal prints a number. */
  function NatToString(n: nat): (s: string)
    ensures s != []
    ensures s[0] == '0' <==> n == 0
    ensures n < 10 <==> |s| == 1
    ensures forall i :: 0 <= i < |s| ==> '0' <= s[i] <= '9'
  {
    if n < 10 then [DigitChar(n)] else NatToString(n / 10) + [DigitChar(n % 10)]
  }

  /** The number a string of decimal digits denotes. */
  function DecimalValue(s: string): int {
    if s == [] then 0 else DecimalValue(s[..|s| - 1]) * 10 + DigitValue(s[|s| - 1])
  }

  /** The printed number reads back as itself. */
  lemma {:induction false} NatToStringRoundTrip(n: nat)
    ensures DecimalValue(NatToString(n)) == n
  {
    var s := NatToString(n);
    if n < 10 {
      assert s[..0] == [];
    } else {
      NatToStringRoundTrip(n / 10);
      assert s[..|s| - 1] == NatToString(n / 10);
    }
  }

  /** The countdown label. */
  function CountdownText(c: Countdown): string {
    match c
    case Closed => ClosedText
    case DaysLeft(d, h) => LeftPrefix + NatToString(d) + "h " + NatToString(h) + "m"
    case HoursLeft(h, m) => LeftPrefix + NatToString(h) + "h " + NatToString(m) + "m"
    case MinutesLeft(m) => LeftPrefix + NatToString(m) + "m"
  }

  /** The days-and-hours label and the hours-and-minutes label share one
      shape: 2 days 3 hours and 2 hours 3 minutes both read "Sisa 2h 3m". */
  lemma DaysLabelMatchesHoursLabel(days: nat, hours: nat)
    ensures CountdownText(DaysLeft(days, hours)) == CountdownText(HoursLeft(days, hours))
  {
  }

  /** The same clash reached from the clock: 3060 and 123 minutes before the
      deadline print the same label. */
  lemma AmbiguousCountdownLabel()
    ensures DeadlineCountdown(VotingDeadline, VotingDeadline - 3060 * MsPerMinute) == DaysLeft(2, 3)
    ensures DeadlineCountdown(VotingDeadline, VotingDeadline - 123 * MsPerMinute) == HoursLeft(2, 3)
    ensures CountdownText(DeadlineCountdown(VotingDeadline, VotingDeadline - 3060 * MsPerMinute)) ==
            CountdownText(DeadlineCountdown(VotingDeadline, VotingDeadline - 123 * MsPerMinute))
  {
    DaysLabelMatchesHoursLabel(2, 3);
  }

  /** The label is the closed text exactly when voting is closed. */
  lemma ClosedTextIffClosed(deadline: int, now: int)
    ensures CountdownText(DeadlineCountdown(deadline, now)) == ClosedText <==> IsVotingClosed(now, deadline)
  {
    var c := DeadlineCountdown(deadline, now);
    if !c.Closed? {
      assert CountdownText(c)[0] == 'S';
    }
  }
}
