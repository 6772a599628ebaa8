/** Daily, weekly and monthly cadences: when one is due, and when it will next be. Instants are civil days
    with a time of day in a zone of fixed offset. */
module Cadence {
  import opened Civil
  import opened Options
  import opened Texts
  import Decimal

  /** ns is nanoseconds into the day. */
  datatype Instant = Instant(day: Date, ns: int)

  const MINUTE := 60_000_000_000

  predicate InstantOk(t: Instant) { Valid(t.day) && 0 <= t.ns < 1440 * MINUTE }

  predicate Before(a: Instant, b: Instant)
    requires Valid(a.day) && Valid(b.day)
  {
    Ord(a.day) < Ord(b.day) || (a.day == b.day && a.ns < b.ns)
  }

  // ---------- the clock time ----------

  function Colon(s: string): (n: nat)
    ensures n <= |s|
  {
    if s == "" || s[0] == ':' then 0 else 1 + Colon(s[1..])
  }

  /** "HH:mm" on a 24-hour clock, as nanoseconds into the day. */
  function ParseHHMM(text: string): (r: Option<int>)
    ensures r.Some? ==> 0 <= r.value < 1440 * MINUTE
  {
    var s := Trim(text);
    var c := Colon(s);
    if c == |s| then None
    else
      var h, m := Decimal.ParseInt(Trim(s[..c])), Decimal.ParseInt(Trim(s[c + 1..]));
      if h.None? || m.None? || h.value < 0 || h.value > 23 || m.value < 0 || m.value > 59 then None
      else Some((h.value * 60 + m.value) * MINUTE)
  }

  // ---------- the rule ----------

  /** Never stands for off and for any unknown frequency. */
  datatype Freq = Daily | Weekly | Monthly | Never

  datatype Rule = Rule(freq: Freq, hhmm: string, weekday: int, monthday: int)

  /** The last day of the month of x: day 0 of the month after. */
  function LastDay(x: Date): int
    requires Valid(x)
  {
    DaysIn(x.y, x.m)
  }

  /** The period stamp to record when the rule fires now; None when it does not fire. stamp is the day of
      the last run, None for a text that names no day. */
  function Due(r: Rule, stamp: Option<Date>, now: Instant): Option<Date>
    requires InstantOk(now)
  {
    var at := ParseHHMM(r.hhmm);
    if at.None? then None
    else
      var today := now.day;
      var fits := match r.freq
        case Daily => true
        case Weekly => !(r.weekday < 0 || r.weekday > 6 || Weekday(today) != r.weekday)
        case Monthly =>
          if r.monthday < 1 || r.monthday > 31 then false
          else
            var want := if r.monthday > LastDay(today) then LastDay(today) else r.monthday;
            today.d == want
        case Never => false;
      if !fits then None
      else if now.ns < at.value then None
      else if stamp == Some(today) then None
      else Some(today)
  }

  /** The given day of a month, clamped to its length; month 13 is January of the next year. */
  function Clamped(y: int, m: int, day: int): Date
    requires 1 <= m <= 13
  {
    var yy, mm := if m == 13 then y + 1 else y, if m == 13 then 1 else m;
    var last := DaysIn(yy, mm);
    var d := if day > last then last else day;
    Date(yy, mm, if d < 1 then 1 else d)
  }

  /** The next instant strictly after now at which the rule can fire. */
  function Next(r: Rule, now: Instant): Option<Instant>
    requires InstantOk(now)
  {
    var at := ParseHHMM(r.hhmm);
    if at.None? then None
    else match r.freq
      case Daily =>
        Some(if now.ns < at.value then Instant(now.day, at.value) else Instant(AddDays(now.day, 1), at.value))
      case Weekly =>
        if r.weekday < 0 || r.weekday > 6 then None
        else
          var delta := (r.weekday - Weekday(now.day) + 7) % 7;
          var t := Instant(AddDays(now.day, delta), at.value);
          Some(if delta > 0 || now.ns < at.value then t else Instant(AddDays(t.day, 7), at.value))
      case Monthly =>
        if r.monthday < 1 || r.monthday > 31 then None
        else
          var t := Instant(Clamped(now.day.y, now.day.m, r.monthday), at.value);
          Some(if t.day.d > now.day.d || (t.day.d == now.day.d && now.ns < at.value) then t
               else Instant(Clamped(now.day.y, now.day.m + 1, r.monthday), at.value))
      case Never => None
  }

  // ---------- eligible days ----------

  predicate Fireable(r: Rule) {
    && ParseHHMM(r.hhmm).Some?
    && match r.freq
       case Daily => true
       case Weekly => 0 <= r.weekday <= 6
       case Monthly => 1 <= r.monthday <= 31
       case Never => false
  }

  /** The days a fireable rule fires on. */
  predicate Eligible(r: Rule, x: Date)
    requires Valid(x)
  {
    match r.freq
    case Daily => true
    case Weekly => Weekday(x) == r.weekday
    case Monthly => x == Clamped(x.y, x.m, r.monthday)
    case Never => false
  }

  lemma ClampedValid(y: int, m: int, day: int)
    requires 1 <= m <= 13
    ensures Valid(Clamped(y, m, day))
  {
  }

  /** Due, in one line: a fireable rule, an eligible day, at or after its time, not yet run today. Spelled out, a
      weekly rule fires on its weekday, and a monthly one on its day or on the last day of a month without it. */
  lemma DueMeans(r: Rule, stamp: Option<Date>, now: Instant)
    requires InstantOk(now)
    ensures Due(r, stamp, now).Some? <==>
      Fireable(r) && Eligible(r, now.day) && now.ns >= ParseHHMM(r.hhmm).value && stamp != Some(now.day)
    ensures Due(r, stamp, now).Some? ==> Due(r, stamp, now).value == now.day
    ensures var at, today := ParseHHMM(r.hhmm), now.day;
      var fits :=
        || r.freq == Daily
        || (r.freq == Weekly && 0 <= r.weekday <= 6 && r.weekday == Weekday(today))
        || (r.freq == Monthly && 1 <= r.monthday <= 31
            && (today.d == r.monthday || (today.d < r.monthday && today.d == DaysIn(today.y, today.m))));
      Due(r, stamp, now) != None <==> at.Some? && now.ns >= at.value && stamp != Some(today) && fits
  {
    hide ParseHHMM, Weekday;
  }

  /** Every month has exactly one eligible monthly day, the 31st of a short month being its last day. */
  lemma OneDayAMonth(r: Rule, y: int, m: int, x: Date)
    requires Fireable(r) && r.freq == Monthly && 1 <= m <= 12
    ensures Valid(Clamped(y, m, r.monthday)) && Eligible(r, Clamped(y, m, r.monthday))
    ensures Valid(x) && x.y == y && x.m == m ==> (Eligible(r, x) <==> x == Clamped(y, m, r.monthday))
    ensures Valid(x) && x.y == y && x.m == m ==>
      (Eligible(r, x) <==> x.d == r.monthday || (x.d < r.monthday && !Valid(x.(d := x.d + 1))))
  {
  }

  /** Every seven days in a row hold exactly one eligible weekly day. */
  lemma OneDayAWeek(r: Rule, start: Date, k: nat)
    requires Fireable(r) && r.freq == Weekly && Valid(start) && k < 7
    ensures Valid(AddDays(start, k))
    ensures Eligible(r, AddDays(start, k)) <==> k == (r.weekday - Weekday(start) + 7) % 7
  {
    AddDaysAdds(start, k);
    WeekSlot(Ord(start), k, r.weekday);
    hide Ord, AddDays, ParseHHMM;
  }

  lemma WeekSlot(o: int, k: nat, w: int)
    requires k < 7 && 0 <= w < 7
    ensures (o + k) % 7 == w <==> k == (w - o % 7 + 7) % 7
  {
  }

  // ---------- at most once a day ----------

  predicate AllOk(ticks: seq<Instant>) { forall k :: 0 <= k < |ticks| ==> InstantOk(ticks[k]) }

  /** A scheduler ticks at the given instants and records the stamp whenever the rule is due. */
  function Stamps(r: Rule, ticks: seq<Instant>, stamp: Option<Date>): Option<Date>
    requires AllOk(ticks)
  {
    if ticks == [] then stamp
    else
      var n := |ticks| - 1;
      var before := Stamps(r, ticks[..n], stamp);
      var due := Due(r, before, ticks[n]);
      if due.Some? then due else before
  }

  predicate Fires(r: Rule, ticks: seq<Instant>, stamp: Option<Date>, i: nat)
    requires AllOk(ticks) && i < |ticks|
  {
    Due(r, Stamps(r, ticks[..i], stamp), ticks[i]).Some?
  }

  predicate NotBefore(a: Instant, b: Instant) { InstantOk(a) && InstantOk(b) && !Before(a, b) }

  predicate Monotone(ticks: seq<Instant>) {
    forall i, j :: 0 <= i < j < |ticks| ==> NotBefore(ticks[j], ticks[i])
  }

  lemma StampStep(r: Rule, ticks: seq<Instant>, stamp: Option<Date>, n: nat)
    requires AllOk(ticks) && n < |ticks|
    ensures Stamps(r, ticks[..n + 1], stamp)
      == if Fires(r, ticks, stamp, n) then Some(ticks[n].day) else Stamps(r, ticks[..n], stamp)
  {
    assert ticks[..n + 1][..n] == ticks[..n];
    DueMeans(r, Stamps(r, ticks[..n], stamp), ticks[n]);
    hide Due;
  }

  lemma NotBeforeOrd(a: Instant, b: Instant)
    requires NotBefore(a, b)
    ensures Ord(b.day) <= Ord(a.day)
  {
  }

  /** The stamp is a day from that of the first instant to that of the second. */
  predicate StampWithin(stamp: Option<Date>, a: Instant, b: Instant) {
    && stamp.Some? && Valid(stamp.value) && InstantOk(a) && InstantOk(b)
    && Ord(a.day) <= Ord(stamp.value) <= Ord(b.day)
  }

  lemma StampMoves(s: Option<Date>, a: Instant, b: Instant, c: Instant)
    requires NotBefore(c, b) && NotBefore(c, a)
    ensures StampWithin(Some(c.day), a, c)
    ensures StampWithin(s, a, b) ==> StampWithin(s, a, c)
  {
    NotBeforeOrd(c, b);
    NotBeforeOrd(c, a);
    hide Ord;
  }

  lemma LastTicks(ticks: seq<Instant>, i: nat, n: nat)
    requires AllOk(ticks) && Monotone(ticks) && i < n <= |ticks|
    ensures InstantOk(ticks[i]) && AllOk(ticks[..i]) && AllOk(ticks[..n - 1]) && AllOk(ticks[..n])
    ensures i < n - 1 ==> NotBefore(ticks[n - 1], ticks[n - 2]) && NotBefore(ticks[n - 1], ticks[i])
  {
    hide Before;
  }

  lemma StampStarts(a: Instant)
    requires InstantOk(a)
    ensures StampWithin(Some(a.day), a, a)
  {
  }

  lemma {:induction false} StampAfterFiring(r: Rule, ticks: seq<Instant>, stamp: Option<Date>, i: nat, n: nat)
    requires AllOk(ticks) && Monotone(ticks) && i < n <= |ticks| && Fires(r, ticks, stamp, i)
    ensures StampWithin(Stamps(r, ticks[..n], stamp), ticks[i], ticks[n - 1])
  {
    hide *;
    LastTicks(ticks, i, n);
    StampStep(r, ticks, stamp, n - 1);
    if i == n - 1 {
      StampStarts(ticks[i]);
    } else {
      StampAfterFiring(r, ticks, stamp, i, n - 1);
      StampMoves(Stamps(r, ticks[..n - 1], stamp), ticks[i], ticks[n - 2], ticks[n - 1]);
    }
  }

  /** Under a clock that never runs backwards the rule fires at most once on any civil day. */
  lemma OncePerDay(r: Rule, ticks: seq<Instant>, stamp: Option<Date>, i: nat, j: nat)
    requires AllOk(ticks) && Monotone(ticks) && i < j < |ticks| && Fires(r, ticks, stamp, i)
      && Fires(r, ticks, stamp, j)
    ensures Ord(ticks[i].day) < Ord(ticks[j].day)
  {
    StampAfterFiring(r, ticks, stamp, i, j);
    var s := Stamps(r, ticks[..j], stamp).value;
    assert NotBefore(ticks[j], ticks[j - 1]);
    NotBeforeOrd(ticks[j], ticks[j - 1]);
    DueMeans(r, Some(s), ticks[j]);
    OrdOrders(s, ticks[j].day);
  }

  // ---------- next agrees with due ----------

  /** No eligible day lies strictly between the two. */
  ghost predicate NoneBetween(r: Rule, a: Date, b: Date)
    requires Valid(a) && Valid(b)
  {
    forall x: Date {:trigger Valid(x)} :: Valid(x) && Ord(a) < Ord(x) < Ord(b) ==> !Eligible(r, x)
  }

  /** The next instant is the first time of the first eligible day, today only while its time is ahead. */
  ghost predicate FirstAfter(r: Rule, now: Instant, n: Instant)
    requires InstantOk(now) && Fireable(r)
  {
    && InstantOk(n) && n.ns == ParseHHMM(r.hhmm).value && Eligible(r, n.day)
    && (if Eligible(r, now.day) && now.ns < n.ns then n.day == now.day
        else Ord(now.day) < Ord(n.day) && NoneBetween(r, now.day, n.day))
  }

  lemma NextDaily(r: Rule, now: Instant)
    requires InstantOk(now) && Fireable(r) && r.freq == Daily
    ensures FirstAfter(r, now, Next(r, now).value)
  {
    AddDaysAdds(now.day, 1);
  }

  lemma SameWeekday(o: int, k: int, w: int)
    requires 0 <= w < 7
    ensures var delta := (w - o % 7 + 7) % 7;
      && (o + delta) % 7 == w && (delta == 0 <==> o % 7 == w)
      && (0 < k < delta ==> (o + k) % 7 != w)
      && (delta == 0 && 0 < k < 7 ==> (o + k) % 7 != w)
  {
  }

  lemma WeeklyFree(r: Rule, today: Date, x: Date, gap: nat)
    requires Valid(today) && Valid(x) && 0 <= r.weekday < 7 && r.freq == Weekly
    requires gap == (r.weekday - Weekday(today) + 7) % 7 || (gap == 7 && Weekday(today) == r.weekday)
    requires Ord(today) < Ord(x) < Ord(today) + gap
    ensures !Eligible(r, x)
  {
    SameWeekday(Ord(today), Ord(x) - Ord(today), r.weekday);
    hide Ord;
  }

  lemma WeeklyLands(r: Rule, today: Date, x: Date, gap: nat)
    requires Valid(today) && Valid(x) && Ord(x) == Ord(today) + gap && 0 <= r.weekday < 7 && r.freq == Weekly
    requires gap == (r.weekday - Weekday(today) + 7) % 7 || (gap == 7 && Weekday(today) == r.weekday)
    ensures Eligible(r, x)
  {
    SameWeekday(Ord(today), 0, r.weekday);
    hide Ord;
  }

  lemma WeeklyNone(r: Rule, today: Date, x: Date, gap: nat)
    requires Valid(today) && Valid(x) && Ord(x) == Ord(today) + gap && 0 <= r.weekday < 7 && r.freq == Weekly
    requires gap == (r.weekday - Weekday(today) + 7) % 7 || (gap == 7 && Weekday(today) == r.weekday)
    ensures NoneBetween(r, today, x)
  {
    hide Ord, Eligible, Weekday;
    forall y: Date {:trigger Valid(y)} | Valid(y) && Ord(today) < Ord(y) < Ord(x) ensures !Eligible(r, y) {
      WeeklyFree(r, today, y, gap);
    }
  }

  lemma WeeklyStep(r: Rule, now: Instant, gap: nat)
    requires InstantOk(now) && Fireable(r) && r.freq == Weekly
    requires gap == (r.weekday - Weekday(now.day) + 7) % 7 || (gap == 7 && Weekday(now.day) == r.weekday)
    ensures Valid(AddDays(now.day, gap)) && Eligible(r, AddDays(now.day, gap))
      && NoneBetween(r, now.day, AddDays(now.day, gap))
    ensures Ord(AddDays(now.day, gap)) == Ord(now.day) + gap
  {
    AddDaysAdds(now.day, gap);
    hide *;
    WeeklyLands(r, now.day, AddDays(now.day, gap), gap);
    WeeklyNone(r, now.day, AddDays(now.day, gap), gap);
  }

  lemma NextWeekly(r: Rule, now: Instant)
    requires InstantOk(now) && Fireable(r) && r.freq == Weekly
    ensures FirstAfter(r, now, Next(r, now).value)
  {
    var delta := (r.weekday - Weekday(now.day) + 7) % 7;
    SameWeekday(Ord(now.day), 0, r.weekday);
    WeeklyStep(r, now, delta);
    assert AddDays(now.day, 0) == now.day;
    if delta == 0 { WeeklyStep(r, now, 7); }
    OrdOrders(now.day, AddDays(now.day, delta));
    hide AddDays, Ord, ParseHHMM, NoneBetween;
  }

  lemma NextMonthly(r: Rule, now: Instant)
    requires InstantOk(now) && Fireable(r) && r.freq == Monthly
    ensures FirstAfter(r, now, Next(r, now).value)
  {
    var n := Next(r, now).value;
    ClampedValid(now.day.y, now.day.m, r.monthday);
    ClampedValid(now.day.y, now.day.m + 1, r.monthday);
    OrdOrders(now.day, n.day);
    forall x: Date {:trigger Valid(x)} | Valid(x) && Ord(now.day) < Ord(x) < Ord(n.day) ensures !Eligible(r, x) {
      OrdOrders(now.day, x);
      OrdOrders(x, n.day);
    }
  }

  lemma NextIsFirst(r: Rule, now: Instant)
    requires InstantOk(now)
    ensures Next(r, now).Some? <==> Fireable(r)
    ensures Fireable(r) ==> FirstAfter(r, now, Next(r, now).value)
    ensures Fireable(r) ==> Before(now, Next(r, now).value)
  {
    if Fireable(r) {
      match r.freq
      case Daily => NextDaily(r, now);
      case Weekly => NextWeekly(r, now);
      case Monthly => NextMonthly(r, now);
    }
  }

  /** The last run lies today or earlier, or there was none. */
  predicate StampOk(stamp: Option<Date>, today: Date)
    requires Valid(today)
  {
    stamp.Some? ==> Valid(stamp.value) && Ord(stamp.value) <= Ord(today)
  }

  /** While a rule is not due it stays so until its next instant. */
  lemma NotDueUntilNext(r: Rule, stamp: Option<Date>, now: Instant, t: Instant)
    requires InstantOk(now) && InstantOk(t) && Fireable(r) && StampOk(stamp, now.day)
    requires Due(r, stamp, now).None? && !Before(t, now) && InstantOk(Next(r, now).value)
      && Before(t, Next(r, now).value)
    ensures Due(r, stamp, t).None?
  {
    NextIsFirst(r, now);
    DueMeans(r, stamp, now);
    DueMeans(r, stamp, t);
    var n := Next(r, now).value;
    OrdOrders(t.day, now.day);
    OrdOrders(t.day, n.day);
    assert Valid(t.day);
  }

  /** The rule run early today is the one case in which the instant shown as next does not fire. */
  predicate RanEarlyToday(r: Rule, stamp: Option<Date>, now: Instant)
    requires InstantOk(now) && Fireable(r)
  {
    stamp == Some(now.day) && Eligible(r, now.day) && now.ns < ParseHHMM(r.hhmm).value
  }

  /** At its next instant a rule that is not due now fires, except when its stamp is already today's while
      today's time is still ahead. */
  lemma DueAtNext(r: Rule, stamp: Option<Date>, now: Instant)
    requires InstantOk(now) && Fireable(r) && StampOk(stamp, now.day) && Due(r, stamp, now).None?
    ensures InstantOk(Next(r, now).value)
    ensures Due(r, stamp, Next(r, now).value).Some? <==> !RanEarlyToday(r, stamp, now)
  {
    NextIsFirst(r, now);
    DueMeans(r, stamp, now);
    var n := Next(r, now).value;
    DueMeans(r, stamp, n);
    OrdOrders(now.day, n.day);
  }

  lemma TrimTwo(n: nat)
    requires n < 100
    ensures Trim(Decimal.TwoDigits(n)) == Decimal.TwoDigits(n)
  {
  }

  /** Two digits, a colon and two digits are hours and minutes into the day, up to 23:59. */
  lemma ClockReads(h: nat, m: nat)
    requires h < 100 && m < 100
    ensures ParseHHMM(Decimal.TwoDigits(h) + ":" + Decimal.TwoDigits(m))
            == if h <= 23 && m <= 59 then Some((h * 3600 + m * 60) * 1_000_000_000) else None
  {
    var a, b := Decimal.TwoDigits(h), Decimal.TwoDigits(m);
    var s := a + ":" + b;
    Decimal.TwoDigitsRead(h);
    Decimal.TwoDigitsRead(m);
    TrimTwo(h);
    TrimTwo(m);
    assert s[..2] == a && s[3..] == b && s[2] == ':';
    assert Trim(s) == s;
    ColonAfter(s);
    hide Trim, Colon, Decimal.ParseInt, Decimal.TwoDigits;
  }

  lemma ColonAfter(s: string)
    requires |s| > 2 && s[0] != ':' && s[1] != ':' && s[2] == ':'
    ensures Colon(s) == 2
  {
    assert s[1..][1..] == s[2..];
    assert Colon(s[2..]) == 0 && Colon(s[1..]) == 1;
  }

  lemma NoonReads()
    ensures ParseHHMM("12:00") == Some(720 * MINUTE)
  {
    ClockReads(12, 0);
    assert Decimal.TwoDigits(12) + ":" + Decimal.TwoDigits(0) == "12:00";
  }

  /** The failing case: a daily rule at noon that already ran this morning shows today's noon as next. */
  lemma ShownButNotDue()
    ensures var r := Rule(Daily, "12:00", 0, 1); var today := Date(2026, 1, 1); var now := Instant(today, 0);
      && InstantOk(now) && Next(r, now) == Some(Instant(today, 720 * MINUTE))
      && Due(r, Some(today), now).None? && Due(r, Some(today), Instant(today, 720 * MINUTE)).None?
  {
    NoonReads();
  }
}
