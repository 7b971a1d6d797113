/** The scheduler: when jobs are due, and catching up after missing some. */
module Cron {
  import opened Wrappers

  // ----- Specifications of times

  /** One part of a list: every step-th number from start on, or a single number. */
  datatype Part = Every(start: int, step: int) | One(n: int)

  datatype Spec = Empty | Star | Parts(parts: seq<Part>)

  /** n is allowed by the part; numbers wrap at maxint + add. */
  predicate InPart(p: Part, maxint: nat, add: nat, n: int)
    requires maxint > 0
  {
    n >= add &&
    match p
    case Every(start, step) => step > 0 && exists i :: 0 <= i < maxint && i % step == 0 && n == (i + start) % (maxint + add)
    case One(x) => n == x % (maxint + add)
  }

  predicate InSpec(s: Spec, maxint: nat, add: nat, n: int)
    requires maxint > 0
  {
    match s
    case Parts(parts) => exists k :: 0 <= k < |parts| && InPart(parts[k], maxint, add, n)
    case _ => add <= n < maxint + add
  }

  /** A step of 0 raises an exception. */
  predicate ValidSpec(s: Spec) {
    s.Parts? ==> forall k :: 0 <= k < |s.parts| ==> s.parts[k].Every? ==> s.parts[k].step != 0
  }

  /** The allowed numbers, in order; None for an exception. */
  method CronSpec(s: Spec, maxint: nat, add: nat) returns (r: Option<seq<int>>)
    requires maxint > 0
    ensures r.Some? <==> ValidSpec(s)
    ensures r.Some? ==> forall n :: n in r.value <==> InSpec(s, maxint, add, n)
    ensures r.Some? ==> forall i, j :: 0 <= i < j < |r.value| ==> r.value[i] < r.value[j]
  {
    if !s.Parts? {
      var all := seq(maxint, d => d + add);
      forall n | add <= n < maxint + add ensures n in all {
        assert all[n - add] == n;
      }
      return Some(all);
    }
    hide InPart;
    var candidates: set<int> := {};
    var k := 0;
    while k < |s.parts|
      invariant 0 <= k <= |s.parts|
      invariant forall j :: 0 <= j < k ==> s.parts[j].Every? ==> s.parts[j].step != 0
      invariant forall n :: n in candidates <==> exists j :: 0 <= j < k && InPart(s.parts[j], maxint, add, n)
    {
      if s.parts[k].Every? && s.parts[k].step == 0 {
        return None;
      }
      var more := PartNumbers(s.parts[k], maxint, add);
      candidates := candidates + more;
      k := k + 1;
    }
    forall n | n in candidates ensures 0 <= n < maxint + add {
      var j :| 0 <= j < k && InPart(s.parts[j], maxint, add, n);
    }
    var all := Increasing(candidates, maxint + add);
    return Some(all);
  }

  method PartNumbers(p: Part, maxint: nat, add: nat) returns (numbers: set<int>)
    requires maxint > 0 && (p.Every? ==> p.step != 0)
    ensures forall n :: n in numbers <==> InPart(p, maxint, add, n)
  {
    numbers := {};
    match p {
      case One(x) =>
        if x % (maxint + add) >= add {
          numbers := {x % (maxint + add)};
        }
      case Every(start, step) =>
        var i := 0;
        while step > 0 && i < maxint
          invariant 0 <= i && (step > 0 ==> i % step == 0)
          invariant forall n :: n in numbers <==>
            && n >= add && step > 0
            && exists j :: 0 <= j < i && j < maxint && j % step == 0 && n == (j + start) % (maxint + add)
        {
          if (i + start) % (maxint + add) >= add {
            numbers := numbers + {(i + start) % (maxint + add)};
          }
          NextMultiple(i, step);
          i := i + step;
        }
    }
  }

  lemma NextMultiple(i: int, step: int)
    requires step > 0 && i % step == 0
    ensures (i + step) % step == 0 && forall j :: i < j < i + step ==> j % step != 0
  {
    var q := i / step;
    Multiple(q + 1, step);
    assert i + step == (q + 1) * step;
    forall j | i < j < i + step ensures j % step != 0 {
      if j % step == 0 {
        Between(q, j / step, step);
      }
    }
  }

  lemma Multiple(q: int, step: int)
    requires step > 0
    ensures (q * step) % step == 0
  {
    var r := q - q * step / step;
    assert r * step == (q * step) % step;
    assert 0 <= r * step < step;
    assert r == 0;
  }

  lemma Between(q: int, p: int, step: int)
    requires step > 0
    ensures !(q * step < p * step < q * step + step)
  {
    if p > q {
      assert (q + 1) * step == q * step + step;
    }
  }

  /** The members of the set, in order. */
  method Increasing(s: set<int>, bound: nat) returns (r: seq<int>)
    requires forall n :: n in s ==> 0 <= n < bound
    ensures forall n :: n in r <==> n in s
    ensures forall i, j :: 0 <= i < j < |r| ==> r[i] < r[j]
  {
    r := [];
    for n := 0 to bound
      invariant forall i :: i in r <==> i in s && i < n
      invariant forall i, j :: 0 <= i < j < |r| ==> r[i] < r[j]
    {
      if n in s {
        assert forall i :: 0 <= i < |r| ==> r[i] in r;
        r := r + [n];
      }
    }
  }

  // ----- The next time

  /** The fields of a minute, counted from some beginning. */
  datatype Calendar = Calendar(minute: int -> int, hour: int -> int, day: int -> int, month: int -> int,
                               weekday: int -> int)

  datatype Times = Times(minutes: Spec, hours: Spec, monthDays: Spec, months: Spec, weekdays: Spec) {
    predicate Valid() {
      ValidSpec(minutes) && ValidSpec(hours) && ValidSpec(monthDays) && ValidSpec(months) && ValidSpec(weekdays)
    }

    /** A job without any times is run once. */
    predicate Recurring() {
      minutes != Empty || hours != Empty || monthDays != Empty || months != Empty || weekdays != Empty
    }
  }

  const LIMIT: nat := 366 * 24 * 60

  predicate Matches(cal: Calendar, t: Times, k: int) {
    && InSpec(t.minutes, 60, 0, cal.minute(k)) && InSpec(t.hours, 24, 0, cal.hour(k))
    && InSpec(t.monthDays, 31, 1, cal.day(k)) && InSpec(t.months, 12, 1, cal.month(k))
    && InSpec(t.weekdays, 7, 0, cal.weekday(k))
  }

  /** The first minute from k to end that matches, in seconds. */
  function FirstMatch(cal: Calendar, t: Times, k: int, end: int): Option<int>
    decreases end - k
  {
    if k > end then None else if Matches(cal, t, k) then Some(60 * k) else FirstMatch(cal, t, k + 1, end)
  }

  /** The first matching minute after the one that now (in seconds) is in, within 366
      days; None for an exception. */
  function NextTime(cal: Calendar, t: Times, now: int): Option<int> {
    if t.Valid() then FirstMatch(cal, t, now / 60 + 1, now / 60 + LIMIT) else None
  }

  method CalculateNext(cal: Calendar, t: Times, now: int) returns (r: Option<int>)
    ensures r == NextTime(cal, t, now)
  {
    hide InSpec, ValidSpec;
    var minutes := CronSpec(t.minutes, 60, 0);
    var hours := CronSpec(t.hours, 24, 0);
    var weekdays := CronSpec(t.weekdays, 7, 0);
    var monthDays := CronSpec(t.monthDays, 31, 1);
    var months := CronSpec(t.months, 12, 1);
    if minutes.None? || hours.None? || weekdays.None? || monthDays.None? || months.None? {
      return None;
    }
    var nxt := now / 60;
    var loopEnd := nxt + LIMIT;
    while nxt < loopEnd
      invariant now / 60 <= nxt <= loopEnd
      invariant FirstMatch(cal, t, nxt + 1, loopEnd) == NextTime(cal, t, now)
    {
      nxt := nxt + 1;
      var found := cal.minute(nxt) in minutes.value && cal.hour(nxt) in hours.value && cal.day(nxt) in monthDays.value
        && cal.month(nxt) in months.value && cal.weekday(nxt) in weekdays.value;
      if found {
        return Some(60 * nxt);
      }
    }
    return None;
  }

  lemma {:induction false} FirstMatchMeaning(cal: Calendar, t: Times, k: int, end: int)
    ensures var r := FirstMatch(cal, t, k, end);
            && (r.Some? ==> r.value % 60 == 0 && k <= r.value / 60 <= end && Matches(cal, t, r.value / 60))
            && forall j :: k <= j <= end && (r.Some? ==> j < r.value / 60) ==> !Matches(cal, t, j)
    decreases end - k
  {
    hide Matches;
    if k <= end {
      FirstMatchMeaning(cal, t, k + 1, end);
    }
  }

  /** The next time is later, each of its five fields is allowed, and in each minute in
      between some field is not; there is none only if the times are invalid or the same
      holds of all minutes of 366 days. */
  lemma NextTimeMeaning(cal: Calendar, t: Times, now: int)
    ensures var r := NextTime(cal, t, now);
            && (r.Some? ==> r.value > now && r.value % 60 == 0 && Matches(cal, t, r.value / 60))
            && (r.Some? ==> forall j :: now / 60 < j < r.value / 60 ==> !Matches(cal, t, j))
            && (r.None? ==> !t.Valid() || forall j :: now / 60 < j <= now / 60 + LIMIT ==> !Matches(cal, t, j))
    ensures var r := NextTime(cal, t, now); r.Some? ==>
      var k := r.value / 60;
      && InSpec(t.minutes, 60, 0, cal.minute(k)) && InSpec(t.hours, 24, 0, cal.hour(k))
      && InSpec(t.monthDays, 31, 1, cal.day(k)) && InSpec(t.months, 12, 1, cal.month(k))
      && InSpec(t.weekdays, 7, 0, cal.weekday(k))
    ensures var r := NextTime(cal, t, now);
      forall k :: t.Valid() && now / 60 < k < (if r.Some? then r.value / 60 else now / 60 + 366 * 24 * 60 + 1) ==>
        || !InSpec(t.minutes, 60, 0, cal.minute(k)) || !InSpec(t.hours, 24, 0, cal.hour(k))
        || !InSpec(t.monthDays, 31, 1, cal.day(k)) || !InSpec(t.months, 12, 1, cal.month(k))
        || !InSpec(t.weekdays, 7, 0, cal.weekday(k))
  {
    hide InSpec, ValidSpec;
    FirstMatchMeaning(cal, t, now / 60 + 1, now / 60 + LIMIT);
    hide FirstMatch;
    var r := NextTime(cal, t, now);
    forall k | t.Valid() && now / 60 < k < (if r.Some? then r.value / 60 else now / 60 + 366 * 24 * 60 + 1)
      ensures || !InSpec(t.minutes, 60, 0, cal.minute(k)) || !InSpec(t.hours, 24, 0, cal.hour(k))
              || !InSpec(t.monthDays, 31, 1, cal.day(k)) || !InSpec(t.months, 12, 1, cal.month(k))
              || !InSpec(t.weekdays, 7, 0, cal.weekday(k))
    {
      assert !Matches(cal, t, k);
    }
  }

  /** What a step allows: from the start on, every step-th number to the end, and, where
      the count has wrapped, so on below the start. */
  lemma StepMeaning(start: int, step: int, maxint: nat, add: nat, n: int)
    requires step > 0 && maxint > 0 && add <= start < maxint + add
    ensures InPart(Every(start, step), maxint, add, n) <==>
      if n >= start then n < maxint + add && (n - start) % step == 0
      else add <= n < start - add && (n + maxint + add - start) % step == 0
  {
    var m := maxint + add;
    if InPart(Every(start, step), maxint, add, n) {
      var i :| 0 <= i < maxint && i % step == 0 && n == (i + start) % m;
      WrapsOnce(i + start, m);
    }
    var i := if n >= start then n - start else n + m - start;
    if 0 <= i < maxint && add <= n < m && i % step == 0 {
      WrapsOnce(i + start, m);
    }
  }

  lemma WrapsOnce(x: int, m: int)
    requires 0 <= x < 2 * m
    ensures x % m == if x < m then x else x - m
  {
    if x >= m { assert (x - m) % m == x - m; }
  }

  /** What the fields of a job allow, for the numbers that a clock shows. */
  lemma SpecMeaning(s: Spec, maxint: nat, add: nat, n: int)
    requires maxint > 0
    ensures s.Empty? || s.Star? ==> (InSpec(s, maxint, add, n) <==> add <= n < maxint + add)
    ensures forall x :: s == Parts([One(x)]) && add <= x < maxint + add ==> (InSpec(s, maxint, add, n) <==> n == x)
    ensures forall p :: s == Parts([p]) ==> (InSpec(s, maxint, add, n) <==> InPart(p, maxint, add, n))
    ensures forall a: seq<Part>, b: seq<Part> :: s == Parts(a + b) ==>
      (InSpec(s, maxint, add, n) <==> InSpec(Parts(a), maxint, add, n) || InSpec(Parts(b), maxint, add, n))
  {
    hide InPart;
    forall x | s == Parts([One(x)]) && add <= x < maxint + add ensures InSpec(s, maxint, add, n) <==> n == x {
      OneMeaning(x, maxint, add, n);
    }
    forall p | s == Parts([p]) ensures InSpec(s, maxint, add, n) <==> InPart(p, maxint, add, n) {
      assert [p][0] == p;
    }
    forall a: seq<Part>, b: seq<Part> | s == Parts(a + b)
      ensures InSpec(s, maxint, add, n) <==> InSpec(Parts(a), maxint, add, n) || InSpec(Parts(b), maxint, add, n)
    {
      InEither(a, b, maxint, add, n);
    }
  }

  lemma InEither(a: seq<Part>, b: seq<Part>, maxint: nat, add: nat, n: int)
    requires maxint > 0
    ensures InSpec(Parts(a + b), maxint, add, n) <==> InSpec(Parts(a), maxint, add, n) || InSpec(Parts(b), maxint, add, n)
  {
    hide InPart;
    if k :| 0 <= k < |a| && InPart(a[k], maxint, add, n) { assert (a + b)[k] == a[k]; }
    if k :| 0 <= k < |b| && InPart(b[k], maxint, add, n) { assert (a + b)[|a| + k] == b[k]; }
  }

  lemma OneMeaning(x: int, maxint: nat, add: nat, n: int)
    requires maxint > 0 && add <= x < maxint + add
    ensures InSpec(Parts([One(x)]), maxint, add, n) <==> n == x
  {
    assert x % (maxint + add) == x;
    assert [One(x)][0] == One(x);
  }

  // ----- Days of the week

  datatype Day = Monday | Tuesday | Wednesday | Thursday | Friday | Saturday | Sunday {
    /** The number that datetime's weekday() has for the day. */
    function Number(): (n: nat)
      ensures n < 7
    {
      match this
      case Monday => 0 case Tuesday => 1 case Wednesday => 2 case Thursday => 3
      case Friday => 4 case Saturday => 5 case Sunday => 6
    }

    function Next(): Day {
      match this
      case Monday => Tuesday case Tuesday => Wednesday case Wednesday => Thursday case Thursday => Friday
      case Friday => Saturday case Saturday => Sunday case Sunday => Monday
    }

    predicate Named(name: string) {
      match this
      case Monday => name == "mon" || name == "monday"
      case Tuesday => name == "tue" || name == "tuesday"
      case Wednesday => name == "wed" || name == "wednesday"
      case Thursday => name == "thu" || name == "thursday"
      case Friday => name == "fri" || name == "friday"
      case Saturday => name == "sat" || name == "saturday"
      case Sunday => name == "sun" || name == "sunday"
    }
  }

  /** The names a weekday field may use, and their numbers. */
  const DOW: map<string, int> := map[
    "sun" := 0, "sunday" := 0, "mon" := 1, "monday" := 1, "tue" := 2, "tuesday" := 2, "wed" := 3, "wednesday" := 3,
    "thu" := 4, "thursday" := 4, "fri" := 5, "friday" := 5, "sat" := 6, "saturday" := 6]

  /** The calendar's weekdays are those of the given days. */
  ghost predicate Dated(cal: Calendar, day: int -> Day) {
    forall k :: cal.weekday(k) == day(k).Number()
  }

  /** The table counts from Sunday, the calendar from Monday. */
  lemma NameIsNext(d: Day, name: string)
    requires d.Named(name)
    ensures name in DOW && DOW[name] == d.Next().Number()
  {}

  lemma NumberIsDay(d: Day, e: Day)
    ensures d.Number() == e.Number() <==> d == e
  {}

  /** A number in the weekday field allows the days that weekday() has it for. */
  lemma NumberAllowsDay(cal: Calendar, day: int -> Day, n: int, d: Day, k: int)
    requires Dated(cal, day) && n % 7 == d.Number()
    ensures InSpec(Parts([One(n)]), 7, 0, cal.weekday(k)) <==> day(k) == d
  {
    NumberIsDay(day(k), d);
    assert [One(n)][0] == One(n);
  }

  /** A name in the weekday field allows the day after the one it names, and no
      other, so a job for a named day is never due on that day. */
  lemma NameAllowsDayAfter(cal: Calendar, day: int -> Day, t: Times, d: Day, name: string, now: int)
    requires Dated(cal, day) && d.Named(name)
    requires name in DOW && t.weekdays == Parts([One(DOW[name])])
    ensures forall k :: InSpec(t.weekdays, 7, 0, cal.weekday(k)) <==> day(k) == d.Next()
    ensures var r := NextTime(cal, t, now); r.Some? ==> day(r.value / 60) == d.Next() != d
  {
    NameIsNext(d, name);
    forall k ensures InSpec(t.weekdays, 7, 0, cal.weekday(k)) <==> day(k) == d.Next() {
      NumberAllowsDay(cal, day, DOW[name], d.Next(), k);
    }
    hide InSpec;
    NextTimeMeaning(cal, t, now);
  }

  /** Days counted from a Thursday, as that of the first of January 1970. */
  function DayOf(k: int): Day {
    match k / 1440 % 7
    case 0 => Thursday case 1 => Friday case 2 => Saturday case 3 => Sunday
    case 4 => Monday case 5 => Tuesday case _ => Wednesday
  }

  /** On that calendar, a job for Mondays that is scheduled at the start is first due
      five days later, on Tuesday the sixth. */
  lemma MondayJobIsDueOnTuesday(cal: Calendar, t: Times)
    requires Dated(cal, DayOf) && t == Times(Star, Star, Star, Star, Parts([One(DOW["mon"])]))
    requires forall k :: 0 <= cal.minute(k) < 60 && 0 <= cal.hour(k) < 24 && 1 <= cal.day(k) <= 31 && 1 <= cal.month(k) <= 12
    ensures NextTime(cal, t, 0) == Some(5 * 24 * 60 * 60) && DayOf(5 * 24 * 60) == Tuesday
  {
    hide Matches, DayOf, NextTime, ValidSpec;
    forall k ensures Matches(cal, t, k) <==> DayOf(k) == Tuesday { OnlyTuesdays(cal, t, k); }
    forall k ensures k == 7200 ==> DayOf(k) == Tuesday
             ensures 0 < k < 7200 ==> DayOf(k) != Tuesday
    {
      FirstTuesday(k);
    }
    StarIsValid();
    NextTimeMeaning(cal, t, 0);
    assert Matches(cal, t, 7200);
  }

  lemma StarIsValid()
    ensures ValidSpec(Star) && forall n :: ValidSpec(Parts([One(n)]))
  {}

  lemma OnlyTuesdays(cal: Calendar, t: Times, k: int)
    requires Dated(cal, DayOf) && t == Times(Star, Star, Star, Star, Parts([One(DOW["mon"])]))
    requires 0 <= cal.minute(k) < 60 && 0 <= cal.hour(k) < 24 && 1 <= cal.day(k) <= 31 && 1 <= cal.month(k) <= 12
    ensures Matches(cal, t, k) <==> DayOf(k) == Tuesday
  {
    hide DayOf, NextTime, InPart;
    NameAllowsDayAfter(cal, DayOf, t, Monday, "mon", 0);
  }

  lemma FirstTuesday(k: int)
    ensures k == 7200 ==> DayOf(k) == Tuesday
    ensures 0 < k < 7200 ==> DayOf(k) != Tuesday
  {
    if 0 < k < 7200 { assert 0 <= k / 1440 < 5; }
  }

  // ----- Running what is due

  const RERUNS: nat := 50

  datatype Job = Job(nextRun: int, noSkip: bool, times: Times, context: string)

  /** What becomes of a job: it is deleted, put off, or left as it is by an exception. */
  datatype Fate = Deleted | Next(time: int) | Failed

  /** The times a job is run for in one call, its fate, and the reruns that are left. */
  datatype Turn = Turn(times: seq<int>, fate: Fate, left: nat)

  function Before(time: int, turn: Turn): Turn {
    Turn([time] + turn.times, turn.fate, turn.left)
  }

  function CatchUp(cal: Calendar, t: Times, next: int, now: int, reruns: nat): Turn
    decreases reruns
  {
    if next > now || reruns == 0 then Turn([], Next(next), reruns)
    else
      var after := NextTime(cal, t, next);
      if after.None? then Turn([next], Failed, reruns)
      else Before(next, CatchUp(cal, t, after.value, now, reruns - 1))
  }

  function TurnOf(cal: Calendar, job: Job, now: int, reruns: nat): Turn {
    var ts := if job.noSkip then job.nextRun else now;
    if !job.times.Recurring() then Turn([ts], Deleted, reruns)
    else
      var next := NextTime(cal, job.times, ts);
      if next.None? then Turn([ts], Failed, reruns) else Before(ts, CatchUp(cal, job.times, next.value, now, reruns))
  }

  type Table = map<nat, Job>

  datatype Run = Run(id: nat, time: int)

  datatype End = Finished | Raised(job: nat) | Abandoned(job: nat)

  /** What a call does: the runs, the new table, and how it ended. */
  datatype Call = Call(runs: seq<Run>, table: Table, end: End)

  function RunsOf(id: nat, times: seq<int>): (runs: seq<Run>)
    ensures |runs| == |times|
  {
    seq(|times|, i requires 0 <= i < |times| => Run(id, times[i]))
  }

  function Settle(table: Table, id: nat, fate: Fate): Table
    requires id in table
  {
    match fate
    case Deleted => table - {id}
    case Next(time) => table[id := table[id].(nextRun := time)]
    case Failed => table
  }

  /** The jobs are in the table, and each is there once. */
  ghost predicate Runnable(table: Table, order: seq<nat>) {
    && (forall i :: 0 <= i < |order| ==> order[i] in table)
    && (forall i, j :: 0 <= i < j < |order| ==> order[i] != order[j])
  }

  /** The jobs in order; the caller takes only so many runs and then goes away. */
  function RunDue(cal: Calendar, table: Table, order: seq<nat>, now: int, reruns: nat, patience: nat): Call
    requires patience > 0 && Runnable(table, order)
    decreases |order|
  {
    if order == [] then Call([], table, Finished)
    else
      var id := order[0];
      var turn := TurnOf(cal, table[id], now, reruns);
      if patience <= |turn.times| then Call(RunsOf(id, turn.times[..patience]), table, Abandoned(id))
      else if turn.fate == Failed then Call(RunsOf(id, turn.times), table, Raised(id))
      else
        var rest := RunDue(cal, Settle(table, id, turn.fate), order[1..], now, turn.left, patience - |turn.times|);
        Call(RunsOf(id, turn.times) + rest.runs, rest.table, rest.end)
  }

  predicate Due(job: Job, context: string, now: int) {
    job.nextRun <= now && (context != "" ==> job.context == context)
  }

  /** The due jobs, each once, in any order. */
  ghost predicate IsOrder(table: Table, context: string, now: int, order: seq<nat>) {
    && (forall id :: id in order <==> id in table && Due(table[id], context, now))
    && (forall i, j :: 0 <= i < j < |order| ==> order[i] != order[j])
  }

  class Scheduler {
    const cal: Calendar
    var crontab: Table

    constructor (cal: Calendar)
      ensures crontab == map[] && this.cal == cal
    {
      this.cal, crontab := cal, map[];
    }

    /** Give the caller every due run, putting each job off or deleting it only after its
        runs have been taken. */
    method YieldDueAndReschedule(context: string, now: int, patience: nat)
      returns (runs: seq<Run>, end: End, ghost order: seq<nat>)
      requires patience > 0
      modifies this
      ensures IsOrder(old(crontab), context, now, order)
      ensures Call(runs, crontab, end) == RunDue(cal, old(crontab), order, now, RERUNS, patience)
      ensures forall id :: id in order <==>
        id in old(crontab) && old(crontab)[id].nextRun <= now && (context == "" || old(crontab)[id].context == context)
      ensures CallRight(old(crontab), order, runs, crontab, end) && |runs| <= |order| + 50 && |runs| <= patience
      ensures forall id :: end == Finished && id in order && id in crontab && crontab[id].nextRun <= now ==>
        |runs| == |order| + 50
    {
      hide TurnOf, Due, RunDue, RunsOf, Settle, CallRight;
      var due := DueIds(context, now);
      CallIsRight(cal, crontab, due, now, RERUNS, patience);
      order := due;
      runs, end := [], Finished;
      var left, i := RERUNS, 0;
      assert due[0..] == due;
      while i < |due|
        invariant 0 <= i <= |due| && |runs| < patience
        invariant Runnable(crontab, due[i..])
        invariant After(runs, RunDue(cal, crontab, due[i..], now, left, patience - |runs|))
               == RunDue(cal, old(crontab), due, now, RERUNS, patience)
      {
        var id, job := due[i], crontab[due[i]];
        RunDueStep(cal, crontab, due[i..], now, left, patience - |runs|);
        assert due[i..][1..] == due[i + 1..];
        var turn := TurnOf(cal, job, now, left);
        var times, fate, left' := RunJob(job, now, left, patience - |runs|);
        if fate.None? {
          end := Abandoned(id);
          runs := runs + RunsOf(id, times);
          return;
        }
        runs := runs + RunsOf(id, times);
        if fate.value == Failed {
          end := Raised(id);
          return;
        }
        crontab := Settle(crontab, id, fate.value);
        left := left';
        i := i + 1;
      }
      assert due[i..] == [];
      RunNothing(cal, crontab, now, left, patience - |runs|);
    }

    /** The due jobs, in whatever order the database gives them. */
    method DueIds(context: string, now: int) returns (order: seq<nat>)
      ensures IsOrder(crontab, context, now, order)
      ensures forall id :: id in order <==>
        id in crontab && crontab[id].nextRun <= now && (context == "" || crontab[id].context == context)
    {
      assert forall id :: id in crontab ==>
        (Due(crontab[id], context, now) <==>
         crontab[id].nextRun <= now && (context == "" || crontab[id].context == context));
      hide Due;
      order := [];
      var todo := set id | id in crontab && Due(crontab[id], context, now);
      ghost var all := todo;
      while todo != {}
        invariant todo <= all && forall id :: id in order <==> id in all && id !in todo
        invariant forall i, j :: 0 <= i < j < |order| ==> order[i] != order[j]
        decreases todo
      {
        var id :| id in todo;
        assert forall i :: 0 <= i < |order| ==> order[i] in order;
        order := order + [id];
        todo := todo - {id};
      }
    }

    /** The times of one job; its turn ends early when the caller goes away. */
    method RunJob(job: Job, now: int, reruns: nat, patience: nat) returns (times: seq<int>, fate: Option<Fate>, left: nat)
      requires patience > 0
      ensures Taken(TurnOf(cal, job, now, reruns), patience, times, fate, left)
    {
      hide NextTime, CatchUp;
      left := reruns;
      var ts := if job.noSkip then job.nextRun else now;
      times := [ts];
      if 1 == patience {
        return times, None, left;
      }
      if !job.times.Recurring() {
        return times, Some(Deleted), left;
      }
      var next := CalculateNext(cal, job.times, ts);
      if next.None? {
        return times, Some(Failed), left;
      }
      var more: seq<int>;
      more, fate, left := RerunJob(job.times, next.value, now, reruns, patience - 1);
      times := times + more;
    }

    /** The runs that were missed, as long as there are reruns left. */
    method RerunJob(t: Times, next: int, now: int, reruns: nat, patience: nat)
      returns (times: seq<int>, fate: Option<Fate>, left: nat)
      requires patience > 0
      ensures Taken(CatchUp(cal, t, next, now, reruns), patience, times, fate, left)
    {
      hide NextTime, CatchUp, Taken;
      times, left := [], reruns;
      var nextRun := next;
      while nextRun <= now && left > 0
        invariant |times| < patience
        invariant Joined(times, CatchUp(cal, t, nextRun, now, left)) == CatchUp(cal, t, next, now, reruns)
        decreases left
      {
        JoinedNext(cal, t, times, nextRun, now, left);
        times := times + [nextRun];
        if |times| == patience {
          TakenPart(CatchUp(cal, t, next, now, reruns), patience, times, left);
          return times, None, left;
        }
        var after := CalculateNext(cal, t, nextRun);
        if after.None? {
          TakenAll(CatchUp(cal, t, next, now, reruns), patience);
          return times, Some(Failed), left;
        }
        nextRun := after.value;
        left := left - 1;
      }
      JoinedEnd(cal, t, times, nextRun, now, left);
      TakenAll(CatchUp(cal, t, next, now, reruns), patience);
      fate := Some(Next(nextRun));
    }
  }

  function After(runs: seq<Run>, call: Call): Call {
    Call(runs + call.runs, call.table, call.end)
  }

  lemma RunNothing(cal: Calendar, table: Table, now: int, reruns: nat, patience: nat)
    requires patience > 0
    ensures RunDue(cal, table, [], now, reruns, patience) == Call([], table, Finished)
  {}

  /** What comes after the first job. */
  function RunDueRest(cal: Calendar, table: Table, order: seq<nat>, now: int, reruns: nat, patience: nat): Call
    requires patience > 0 && order != [] && Runnable(table, order)
  {
    var id := order[0];
    var turn := TurnOf(cal, table[id], now, reruns);
    if patience <= |turn.times| then Call([], table, Abandoned(id))
    else if turn.fate == Failed then Call([], table, Raised(id))
    else RunDue(cal, Settle(table, id, turn.fate), order[1..], now, turn.left, patience - |turn.times|)
  }

  lemma RunDueStep(cal: Calendar, table: Table, order: seq<nat>, now: int, reruns: nat, patience: nat)
    requires patience > 0 && order != [] && Runnable(table, order)
    ensures var id, turn := order[0], TurnOf(cal, table[order[0]], now, reruns);
            && RunDue(cal, table, order, now, reruns, patience) ==
                 After(RunsOf(id, if patience <= |turn.times| then turn.times[..patience] else turn.times),
                       RunDueRest(cal, table, order, now, reruns, patience))
            && Runnable(Settle(table, id, turn.fate), order[1..])
  {
    hide TurnOf, RunsOf;
    var turn := TurnOf(cal, table[order[0]], now, reruns);
    assert RunsOf(order[0], turn.times) + [] == RunsOf(order[0], turn.times);
    if patience <= |turn.times| {
      assert RunsOf(order[0], turn.times[..patience]) + [] == RunsOf(order[0], turn.times[..patience]);
    }
  }

  /** The caller has taken as much of the turn as it has patience for. */
  predicate Taken(turn: Turn, patience: nat, times: seq<int>, fate: Option<Fate>, left: nat) {
    if patience <= |turn.times| then times == turn.times[..patience] && fate == None
    else times == turn.times && fate == Some(turn.fate) && left == turn.left
  }

  lemma TakenPart(turn: Turn, patience: nat, times: seq<int>, left: nat)
    requires times <= turn.times && |times| == patience
    ensures Taken(turn, patience, times, None, left)
  {}

  lemma TakenAll(turn: Turn, patience: nat)
    requires |turn.times| < patience
    ensures Taken(turn, patience, turn.times, Some(turn.fate), turn.left)
  {}

  lemma JoinedEnd(cal: Calendar, t: Times, times: seq<int>, next: int, now: int, left: nat)
    requires next > now || left == 0
    ensures Joined(times, CatchUp(cal, t, next, now, left)) == Turn(times, Next(next), left)
  {
    assert times + [] == times;
  }

  function Joined(times: seq<int>, turn: Turn): Turn {
    Turn(times + turn.times, turn.fate, turn.left)
  }

  lemma JoinedNext(cal: Calendar, t: Times, times: seq<int>, next: int, now: int, left: nat)
    requires next <= now && left > 0
    ensures var after := NextTime(cal, t, next);
            Joined(times, CatchUp(cal, t, next, now, left)) ==
              if after.None? then Turn(times + [next], Failed, left)
              else Joined(times + [next], CatchUp(cal, t, after.value, now, left - 1))
  {
    hide NextTime;
    var after := NextTime(cal, t, next);
    if after.Some? {
      var rest := CatchUp(cal, t, after.value, now, left - 1).times;
      assert times + ([next] + rest) == times + [next] + rest;
    }
  }

  // ----- What the runs of one job are

  /** The times for which the runs of a job are. */
  function TimesOf(runs: seq<Run>, id: nat): seq<int> {
    if runs == [] then [] else (if runs[0].id == id then [runs[0].time] else []) + TimesOf(runs[1..], id)
  }

  lemma {:induction false} TimesAppend(a: seq<Run>, b: seq<Run>, id: nat)
    ensures TimesOf(a + b, id) == TimesOf(a, id) + TimesOf(b, id)
    decreases |a|
  {
    if a == [] {
      assert a + b == b;
    } else {
      var head := if a[0].id == id then [a[0].time] else [];
      assert (a + b)[1..] == a[1..] + b;
      TimesAppend(a[1..], b, id);
      assert head + (TimesOf(a[1..], id) + TimesOf(b, id)) == head + TimesOf(a[1..], id) + TimesOf(b, id);
    }
  }

  lemma {:induction false} TimesOfRuns(id: nat, times: seq<int>, other: nat)
    ensures TimesOf(RunsOf(other, times), id) == if other == id then times else []
    decreases |times|
  {
    if times != [] {
      assert RunsOf(other, times)[1..] == RunsOf(other, times[1..]);
      TimesOfRuns(id, times[1..], other);
      assert times == [times[0]] + times[1..];
    }
  }

  /** A call that ends in a job has not put it off. */
  predicate EndsIn(end: End, id: nat) {
    end == Raised(id) || end == Abandoned(id)
  }

  /** What a call does to one job: it is not reached, or it has its whole turn, or the
      call ends in it, with the first of its runs taken and the job as it was. */
  ghost predicate JobDone(cal: Calendar, job: Job, id: nat, now: int, left: nat, times: seq<int>, table: Table, end: End) {
    var turn := TurnOf(cal, job, now, left);
    if EndsIn(end, id) then times != [] && times <= turn.times && id in table && table[id] == job
    else
      || (times == [] && id in table && table[id] == job)
      || (times == turn.times && turn.fate == Deleted && id !in table)
      || (times == turn.times && turn.fate.Next? && id in table && table[id] == job.(nextRun := turn.fate.time))
  }

  /** The call ends in the first job. */
  lemma CallEnds(cal: Calendar, table: Table, order: seq<nat>, now: int, reruns: nat, patience: nat, x: nat)
    requires patience > 0 && order != [] && Runnable(table, order) && order[0] in table
    requires var turn := TurnOf(cal, table[order[0]], now, reruns); patience <= |turn.times| || turn.fate == Failed
    ensures var id, turn := order[0], TurnOf(cal, table[order[0]], now, reruns);
            var taken := if patience <= |turn.times| then turn.times[..patience] else turn.times;
            var c := RunDue(cal, table, order, now, reruns, patience);
            && c.table == table && c.end == (if patience <= |turn.times| then Abandoned(id) else Raised(id))
            && TimesOf(c.runs, x) == if x == id then taken else []
  {
    hide TurnOf, TimesOf, RunsOf;
    var turn := TurnOf(cal, table[order[0]], now, reruns);
    TimesOfRuns(x, if patience <= |turn.times| then turn.times[..patience] else turn.times, order[0]);
  }

  /** The call goes on after the first job. */
  lemma CallGoesOn(cal: Calendar, table: Table, order: seq<nat>, now: int, reruns: nat, patience: nat, x: nat)
    requires patience > 0 && order != [] && Runnable(table, order) && order[0] in table
    requires var turn := TurnOf(cal, table[order[0]], now, reruns); patience > |turn.times| && turn.fate != Failed
    ensures var id, turn := order[0], TurnOf(cal, table[order[0]], now, reruns);
            var after := Settle(table, id, turn.fate);
            && Runnable(after, order[1..]) && id !in order[1..] && (x in order <==> x == id || x in order[1..])
            && var c := RunDue(cal, table, order, now, reruns, patience);
               var rest := RunDue(cal, after, order[1..], now, turn.left, patience - |turn.times|);
               && c.table == rest.table && c.end == rest.end
               && TimesOf(c.runs, x) == if x == id then turn.times + TimesOf(rest.runs, x) else TimesOf(rest.runs, x)
  {
    hide TurnOf, TimesOf, RunsOf;
    var id, turn := order[0], TurnOf(cal, table[order[0]], now, reruns);
    var after := Settle(table, id, turn.fate);
    assert order == [id] + order[1..];
    assert forall i :: 0 <= i < |order[1..]| ==> order[1..][i] == order[i + 1];
    assert Runnable(after, order[1..]);
    var rest := RunDue(cal, after, order[1..], now, turn.left, patience - |turn.times|);
    TimesAppend(RunsOf(id, turn.times), rest.runs, x);
    TimesOfRuns(x, turn.times, id);
    assert [] + TimesOf(rest.runs, x) == TimesOf(rest.runs, x);
  }

  lemma FirstIsThere(table: Table, order: seq<nat>)
    requires order != [] && Runnable(table, order)
    ensures order[0] in table && order[0] in order
  {}

  lemma SettleOther(table: Table, id: nat, fate: Fate, other: nat)
    requires id in table && other != id
    ensures other in Settle(table, id, fate) <==> other in table
    ensures other in table ==> Settle(table, id, fate)[other] == table[other]
  {}

  /** The job comes first: it has its whole turn, or the call ends in it. */
  lemma JobIsFirst(cal: Calendar, table: Table, order: seq<nat>, now: int, reruns: nat, patience: nat)
    requires patience > 0 && order != [] && Runnable(table, order) && order[0] in table
    ensures var id, c := order[0], RunDue(cal, table, order, now, reruns, patience);
            && JobDone(cal, table[id], id, now, reruns, TimesOf(c.runs, id), c.table, c.end) && TimesOf(c.runs, id) != []
  {
    hide TurnOf, TimesOf, RunsOf, RunDue, Runnable;
    var id := order[0];
    var turn := TurnOf(cal, table[id], now, reruns);
    TurnIsNotEmpty(cal, table[id], now, reruns);
    if patience > |turn.times| && turn.fate != Failed {
      CallGoesOn(cal, table, order, now, reruns, patience, id);
      NotThereAgain(cal, Settle(table, id, turn.fate), order[1..], now, turn.left, patience - |turn.times|, id);
      assert turn.times + [] == turn.times;
    } else {
      CallEnds(cal, table, order, now, reruns, patience, id);
    }
  }

  lemma {:induction false} JobInCall(cal: Calendar, table: Table, order: seq<nat>, now: int, reruns: nat, patience: nat, id: nat)
    returns (left: nat)
    requires patience > 0 && id in table && Runnable(table, order)
    ensures var c := RunDue(cal, table, order, now, reruns, patience);
            && left <= reruns && JobDone(cal, table[id], id, now, left, TimesOf(c.runs, id), c.table, c.end)
            && (c.end == Finished && id in order ==> TimesOf(c.runs, id) != [])
            && (id !in order ==> TimesOf(c.runs, id) == [] && !EndsIn(c.end, id))
    decreases |order|
  {
    hide TurnOf, TimesOf, RunsOf, RunDue, Runnable, Settle;
    left := reruns;
    if order == [] {
      NoTimes(id);
      RunNothing(cal, table, now, reruns, patience);
    } else if order[0] == id {
      hide JobDone;
      JobIsFirst(cal, table, order, now, reruns, patience);
    } else {
      FirstIsThere(table, order);
      var first, turn := order[0], TurnOf(cal, table[order[0]], now, reruns);
      if patience > |turn.times| && turn.fate != Failed {
        CallGoesOn(cal, table, order, now, reruns, patience, id);
        TurnIsNotEmpty(cal, table[first], now, reruns);
        SettleOther(table, first, turn.fate, id);
        left := JobInCall(cal, Settle(table, first, turn.fate), order[1..], now, turn.left, patience - |turn.times|, id);
        hide JobDone;
      } else {
        CallEnds(cal, table, order, now, reruns, patience, id);
      }
    }
  }

  lemma NoTimes(id: nat)
    ensures TimesOf([], id) == []
  {}

  lemma TurnIsNotEmpty(cal: Calendar, job: Job, now: int, reruns: nat)
    ensures var turn := TurnOf(cal, job, now, reruns);
            && turn.times != [] && turn.left <= reruns && turn.times[0] == if job.noSkip then job.nextRun else now
  {
    hide NextTime;
    var ts := if job.noSkip then job.nextRun else now;
    var next := NextTime(cal, job.times, ts);
    if next.Some? { CatchUpLeaves(cal, job.times, next.value, now, reruns); }
  }

  lemma {:induction false} CatchUpLeaves(cal: Calendar, t: Times, next: int, now: int, reruns: nat)
    ensures CatchUp(cal, t, next, now, reruns).left <= reruns
    decreases reruns
  {
    hide NextTime;
    if next <= now && reruns > 0 {
      var after := NextTime(cal, t, next);
      if after.Some? { CatchUpLeaves(cal, t, after.value, now, reruns - 1); }
    }
  }

  /** A job that has had its turn is left alone. */
  lemma {:induction false} NotThereAgain(cal: Calendar, table: Table, order: seq<nat>, now: int, reruns: nat, patience: nat, id: nat)
    requires patience > 0 && id !in order && Runnable(table, order)
    ensures var c := RunDue(cal, table, order, now, reruns, patience);
            && TimesOf(c.runs, id) == [] && !EndsIn(c.end, id) && (id in c.table <==> id in table)
            && (id in table ==> c.table[id] == table[id])
    decreases |order|
  {
    hide TurnOf, TimesOf, RunsOf, RunDue, Runnable, Settle;
    if order == [] {
      NoTimes(id);
      RunNothing(cal, table, now, reruns, patience);
    } else {
      FirstIsThere(table, order);
      var first, turn := order[0], TurnOf(cal, table[order[0]], now, reruns);
      if patience > |turn.times| && turn.fate != Failed {
        CallGoesOn(cal, table, order, now, reruns, patience, id);
        SettleOther(table, first, turn.fate, id);
        NotThereAgain(cal, Settle(table, first, turn.fate), order[1..], now, turn.left, patience - |turn.times|, id);
      } else {
        CallEnds(cal, table, order, now, reruns, patience, id);
      }
    }
  }

  /** Each time is the next one after the one before it: none is left out. */
  ghost predicate Consecutive(cal: Calendar, t: Times, times: seq<int>) {
    forall i :: 0 <= i < |times| - 1 ==> NextTime(cal, t, times[i]) == Some(times[i + 1])
  }

  /** times are consecutive from first on, and next comes after the last of them. */
  ghost predicate Leads(cal: Calendar, t: Times, first: int, times: seq<int>, next: int) {
    && Consecutive(cal, t, times)
    && if times == [] then next == first
       else times[0] == first && NextTime(cal, t, times[|times| - 1]) == Some(next)
  }

  /** What a turn with a fate other than an exception gives; it stops only when the next
      time is yet to come, or the reruns are used up. */
  lemma {:induction false} CatchUpLeads(cal: Calendar, t: Times, next: int, now: int, reruns: nat)
    ensures var c := CatchUp(cal, t, next, now, reruns);
            && !c.fate.Deleted?
            && (c.fate.Next? ==> Leads(cal, t, next, c.times, c.fate.time) && (c.fate.time > now || c.left == 0))
            && (c.fate.Failed? ==> c.times != [] && c.times[0] == next && Consecutive(cal, t, c.times)
                                   && NextTime(cal, t, c.times[|c.times| - 1]) == None)
    decreases reruns
  {
    hide NextTime;
    if next <= now && reruns > 0 {
      var after := NextTime(cal, t, next);
      if after.Some? {
        var rest := CatchUp(cal, t, after.value, now, reruns - 1);
        CatchUpLeads(cal, t, after.value, now, reruns - 1);
        if rest.fate.Next? {
        } else {
          assert forall i :: 0 < i < |[next] + rest.times| ==> ([next] + rest.times)[i] == rest.times[i - 1];
        }
      }
    }
  }

  /** A turn of a no-skip job: consecutive times from its next run on. */
  lemma NoSkipTurn(cal: Calendar, job: Job, now: int, reruns: nat)
    requires job.noSkip && job.times.Recurring()
    ensures var turn := TurnOf(cal, job, now, reruns);
            && !turn.fate.Deleted? && turn.times != [] && turn.times[0] == job.nextRun && Consecutive(cal, job.times, turn.times)
            && (turn.fate.Next? ==> Leads(cal, job.times, job.nextRun, turn.times, turn.fate.time)
                                    && (turn.fate.time > now || turn.left == 0))
            && (turn.fate.Failed? ==> NextTime(cal, job.times, turn.times[|turn.times| - 1]) == None)
  {
    hide NextTime, CatchUp;
    var ts := job.nextRun;
    var next := NextTime(cal, job.times, ts);
    if next.Some? {
      var rest := CatchUp(cal, job.times, next.value, now, reruns);
      CatchUpLeads(cal, job.times, next.value, now, reruns);
      if rest.fate.Next? {
      } else {
        assert forall i :: 0 < i < |[ts] + rest.times| ==> ([ts] + rest.times)[i] == rest.times[i - 1];
      }
    }
  }

  /** A turn of any other recurring job: one run now, however much was missed, and the
      next one at the first matching minute after now. */
  lemma SkipTurn(cal: Calendar, job: Job, now: int, reruns: nat)
    requires !job.noSkip && job.times.Recurring()
    ensures var turn := TurnOf(cal, job, now, reruns);
            && turn.times == [now]
            && turn.fate == match NextTime(cal, job.times, now) { case None => Failed case Some(n) => Next(n) }
            && (turn.fate.Next? ==> turn.fate.time > now)
  {
    NextTimeMeaning(cal, job.times, now);
    hide NextTime;
  }

  /** One call gives a no-skip job consecutive times from its next run on, and then puts
      it off to the time after them, if and only if it does not end in that job. */
  lemma NoSkipCall(cal: Calendar, table: Table, order: seq<nat>, now: int, reruns: nat, patience: nat, id: nat)
    requires patience > 0 && id in table && Runnable(table, order)
    requires table[id].noSkip && table[id].times.Recurring()
    ensures var job, c := table[id], RunDue(cal, table, order, now, reruns, patience);
            var times := TimesOf(c.runs, id);
            && Consecutive(cal, job.times, times) && (times != [] ==> times[0] == job.nextRun) && id in c.table
            && c.table[id] == job.(nextRun := c.table[id].nextRun)
            && (EndsIn(c.end, id) ==> times != [] && c.table[id] == job)
            && (!EndsIn(c.end, id) ==> Leads(cal, job.times, job.nextRun, times, c.table[id].nextRun))
  {
    var job, c := table[id], RunDue(cal, table, order, now, reruns, patience);
    var left := JobInCall(cal, table, order, now, reruns, patience, id);
    NoSkipTurn(cal, job, now, left);
    hide NextTime, TurnOf, RunDue, TimesOf;
    var turn, times := TurnOf(cal, job, now, left), TimesOf(c.runs, id);
    if EndsIn(c.end, id) {
      assert forall i :: 0 <= i < |times| ==> times[i] == turn.times[i];
    }
  }

  // ----- One call

  ghost predicate HasRun(runs: seq<Run>, id: nat) {
    exists i :: 0 <= i < |runs| && runs[i].id == id
  }

  /** Only the jobs in order are run and change; when the call gets through, all of them
      are run, and just those without any times are gone. */
  ghost predicate CallRight(before: Table, order: seq<nat>, runs: seq<Run>, after: Table, end: End) {
    && (forall i :: 0 <= i < |runs| ==> runs[i].id in order)
    && after.Keys <= before.Keys
    && (forall id :: id in before && id !in order ==> id in after && after[id] == before[id])
    && (forall id :: id in after ==> after[id] == before[id].(nextRun := after[id].nextRun))
    && (end == Finished ==> forall id :: id in order && id in before ==>
          HasRun(runs, id) && (id !in after <==> before[id].times == Times(Empty, Empty, Empty, Empty, Empty)))
  }

  lemma {:induction false} TimesOfRun(runs: seq<Run>, id: nat)
    ensures TimesOf(runs, id) != [] <==> HasRun(runs, id)
  {
    if runs != [] {
      TimesOfRun(runs[1..], id);
      assert runs == [runs[0]] + runs[1..];
    }
  }

  /** A turn takes no more reruns than there are. */
  lemma {:induction false} CatchUpSize(cal: Calendar, t: Times, next: int, now: int, reruns: nat)
    ensures var c := CatchUp(cal, t, next, now, reruns);
      |c.times| <= reruns && (c.fate != Failed ==> |c.times| + c.left == reruns)
    decreases reruns
  {
    hide NextTime;
    if next <= now && reruns > 0 {
      var after := NextTime(cal, t, next);
      if after.Some? { CatchUpSize(cal, t, after.value, now, reruns - 1); }
    }
  }

  lemma TurnSize(cal: Calendar, job: Job, now: int, reruns: nat)
    ensures var turn := TurnOf(cal, job, now, reruns);
      && |turn.times| <= 1 + reruns && (turn.fate != Failed ==> |turn.times| + turn.left == 1 + reruns)
      && (turn.fate.Deleted? <==> job.times == Times(Empty, Empty, Empty, Empty, Empty))
  {
    hide NextTime, CatchUp;
    var next := NextTime(cal, job.times, if job.noSkip then job.nextRun else now);
    if next.Some? {
      CatchUpSize(cal, job.times, next.value, now, reruns);
      CatchUpLeads(cal, job.times, next.value, now, reruns);
    }
  }

  lemma {:induction false} CallSize(cal: Calendar, table: Table, order: seq<nat>, now: int, reruns: nat, patience: nat)
    requires patience > 0 && Runnable(table, order)
    ensures var c := RunDue(cal, table, order, now, reruns, patience);
      && |c.runs| <= |order| + reruns && |c.runs| <= patience && c.table.Keys <= table.Keys
      && (c.end == Finished ==> |c.runs| >= |order|)
    decreases |order|
  {
    hide TurnOf, RunsOf;
    if order != [] {
      var turn := TurnOf(cal, table[order[0]], now, reruns);
      TurnSize(cal, table[order[0]], now, reruns);
      TurnIsNotEmpty(cal, table[order[0]], now, reruns);
      RunDueStep(cal, table, order, now, reruns, patience);
      if patience > |turn.times| && turn.fate != Failed {
        CallSize(cal, Settle(table, order[0], turn.fate), order[1..], now, turn.left, patience - |turn.times|);
      }
    }
  }

  /** A job that is put off to a time which has passed means that the reruns are used up. */
  lemma {:induction false} LateMeansUsedUp(cal: Calendar, table: Table, order: seq<nat>, now: int, reruns: nat, patience: nat,
                                           id: nat)
    requires patience > 0 && Runnable(table, order) && id in order
    requires var c := RunDue(cal, table, order, now, reruns, patience);
      c.end == Finished && id in c.table && c.table[id].nextRun <= now
    ensures |RunDue(cal, table, order, now, reruns, patience).runs| == |order| + reruns
    decreases |order|
  {
    hide TurnOf, RunsOf, RunDue, Runnable, Settle;
    FirstIsThere(table, order);
    var first, turn := order[0], TurnOf(cal, table[order[0]], now, reruns);
    TurnSize(cal, table[first], now, reruns);
    if patience > |turn.times| && turn.fate != Failed {
      CallGoesOn(cal, table, order, now, reruns, patience, id);
      var after := Settle(table, first, turn.fate);
      RunDueStep(cal, table, order, now, reruns, patience);
      CallSize(cal, after, order[1..], now, turn.left, patience - |turn.times|);
      if id == first {
        NotThereAgain(cal, after, order[1..], now, turn.left, patience - |turn.times|, id);
        SettleOwn(table, id, turn.fate);
        LateTurn(cal, table[id], now, reruns);
      } else {
        LateMeansUsedUp(cal, after, order[1..], now, turn.left, patience - |turn.times|, id);
      }
    } else {
      CallEnds(cal, table, order, now, reruns, patience, id);
    }
  }

  lemma SettleOwn(table: Table, id: nat, fate: Fate)
    requires id in table && fate != Failed
    ensures var after := Settle(table, id, fate);
      id in after ==> fate.Next? && after[id].nextRun == fate.time
  {}

  lemma LateTurn(cal: Calendar, job: Job, now: int, reruns: nat)
    ensures var turn := TurnOf(cal, job, now, reruns); turn.fate.Next? && turn.fate.time <= now ==> turn.left == 0
  {
    hide NextTime, CatchUp;
    var next := NextTime(cal, job.times, if job.noSkip then job.nextRun else now);
    if next.Some? { CatchUpLeads(cal, job.times, next.value, now, reruns); }
  }

  lemma CallIsRight(cal: Calendar, table: Table, order: seq<nat>, now: int, reruns: nat, patience: nat)
    requires patience > 0 && Runnable(table, order)
    ensures var c := RunDue(cal, table, order, now, reruns, patience);
      && CallRight(table, order, c.runs, c.table, c.end)
      && |c.runs| <= |order| + reruns && |c.runs| <= patience
      && forall id :: c.end == Finished && id in order && id in c.table && c.table[id].nextRun <= now ==>
           |c.runs| == |order| + reruns
  {
    hide RunDue, TurnOf, TimesOf, Runnable, HasRun;
    var c := RunDue(cal, table, order, now, reruns, patience);
    CallSize(cal, table, order, now, reruns, patience);
    forall id | id in table ensures JobRight(table, order, c, id) {
      JobIsRight(cal, table, order, now, reruns, patience, id);
    }
    forall id | c.end == Finished && id in order && id in c.table && c.table[id].nextRun <= now
      ensures |c.runs| == |order| + reruns
    {
      LateMeansUsedUp(cal, table, order, now, reruns, patience, id);
    }
    forall i | 0 <= i < |c.runs| ensures c.runs[i].id in order {
      RunIsDue(cal, table, order, now, reruns, patience, i);
    }
  }

  ghost predicate JobRight(table: Table, order: seq<nat>, c: Call, id: nat)
    requires id in table
  {
    && (id in c.table ==> c.table[id] == table[id].(nextRun := c.table[id].nextRun))
    && (id !in order ==> id in c.table && c.table[id] == table[id])
    && (c.end == Finished && id in order ==>
          HasRun(c.runs, id) && (id !in c.table <==> table[id].times == Times(Empty, Empty, Empty, Empty, Empty)))
  }

  lemma JobIsRight(cal: Calendar, table: Table, order: seq<nat>, now: int, reruns: nat, patience: nat, id: nat)
    requires patience > 0 && id in table && Runnable(table, order)
    ensures JobRight(table, order, RunDue(cal, table, order, now, reruns, patience), id)
  {
    hide RunDue, TurnOf, TimesOf, Runnable, HasRun;
    var left := JobInCall(cal, table, order, now, reruns, patience, id);
    TurnSize(cal, table[id], now, left);
    TurnIsNotEmpty(cal, table[id], now, left);
    TimesOfRun(RunDue(cal, table, order, now, reruns, patience).runs, id);
    if id !in order { NotThereAgain(cal, table, order, now, reruns, patience, id); }
  }

  lemma {:induction false} RunIsDue(cal: Calendar, table: Table, order: seq<nat>, now: int, reruns: nat, patience: nat, i: nat)
    requires patience > 0 && Runnable(table, order)
    requires i < |RunDue(cal, table, order, now, reruns, patience).runs|
    ensures RunDue(cal, table, order, now, reruns, patience).runs[i].id in order
  {
    hide RunDue, TimesOf, Runnable;
    var runs := RunDue(cal, table, order, now, reruns, patience).runs;
    var id := runs[i].id;
    TimesOfRun(runs, id);
    assert HasRun(runs, id);
    if id !in order { NotThereAgain(cal, table, order, now, reruns, patience, id); }
  }

  // ----- Many calls

  /** A call: for which jobs, when, in which order, and when the caller goes away. */
  datatype Request = Request(context: string, now: int, order: seq<nat>, patience: nat)

  ghost predicate Fits(table: Table, r: Request) {
    r.patience > 0 && IsOrder(table, r.context, r.now, r.order)
  }

  function Answer(cal: Calendar, table: Table, r: Request): Call
    requires Fits(table, r)
  {
    RunDue(cal, table, r.order, r.now, RERUNS, r.patience)
  }

  ghost predicate AllFit(cal: Calendar, table: Table, requests: seq<Request>)
    decreases |requests|
  {
    requests == [] || (Fits(table, requests[0]) && AllFit(cal, Answer(cal, table, requests[0]).table, requests[1..]))
  }

  /** No call ends in this job. */
  ghost predicate NoneEndsIn(cal: Calendar, table: Table, requests: seq<Request>, id: nat)
    requires AllFit(cal, table, requests)
    decreases |requests|
  {
    requests == [] ||
    (var c := Answer(cal, table, requests[0]);
     !EndsIn(c.end, id) && NoneEndsIn(cal, c.table, requests[1..], id))
  }

  /** All times for which the job was run. */
  function Served(cal: Calendar, table: Table, requests: seq<Request>, id: nat): seq<int>
    requires AllFit(cal, table, requests)
    decreases |requests|
  {
    if requests == [] then []
    else
      var c := Answer(cal, table, requests[0]);
      TimesOf(c.runs, id) + Served(cal, c.table, requests[1..], id)
  }

  function Final(cal: Calendar, table: Table, requests: seq<Request>): Table
    requires AllFit(cal, table, requests)
    decreases |requests|
  {
    if requests == [] then table else Final(cal, Answer(cal, table, requests[0]).table, requests[1..])
  }

  /** Over any calls, at any times and in any order, with other jobs using up the reruns,
      a no-skip job in which no call ends is run exactly once for each of its
      consecutive times, and then waits for the one after them. */
  lemma {:induction false} ExactlyOnce(cal: Calendar, table: Table, requests: seq<Request>, id: nat)
    requires AllFit(cal, table, requests) && NoneEndsIn(cal, table, requests, id)
    requires id in table && table[id].noSkip && table[id].times.Recurring()
    ensures var final := Final(cal, table, requests);
            && id in final
            && Leads(cal, table[id].times, table[id].nextRun, Served(cal, table, requests, id), final[id].nextRun)
    decreases |requests|
  {
    if requests != [] {
      var r := requests[0];
      var c := Answer(cal, table, r);
      NoSkipCall(cal, table, r.order, r.now, RERUNS, r.patience, id);
      ExactlyOnce(cal, c.table, requests[1..], id);
      hide NextTime, RunDue, TimesOf;
    }
  }

  /** Where a call ends in the middle of a job's turn, the times yielded begin again in
      the next call that comes to the job. */
  lemma EndedTurnRepeats(cal: Calendar, table: Table, r: Request, r': Request, id: nat)
    requires Fits(table, r) && id in table && table[id].noSkip && table[id].times.Recurring()
    requires EndsIn(Answer(cal, table, r).end, id) && Fits(Answer(cal, table, r).table, r')
    requires TimesOf(Answer(cal, Answer(cal, table, r).table, r').runs, id) != []
    ensures var c := Answer(cal, table, r);
      TimesOf(c.runs, id) != [] &&
      TimesOf(c.runs, id)[0] == TimesOf(Answer(cal, c.table, r').runs, id)[0] == table[id].nextRun
  {
    NoSkipCall(cal, table, r.order, r.now, RERUNS, r.patience, id);
    hide *;
    var c := Answer(cal, table, r);
    NoSkipCall(cal, c.table, r'.order, r'.now, RERUNS, r'.patience, id);
  }

  /** Each due job without no-skip is run once, for now, and waits for the first matching
      minute after now, if the call gets through and there is such a minute. */
  lemma SkipCall(cal: Calendar, table: Table, r: Request, id: nat)
    requires Fits(table, r) && id in r.order && !table[id].noSkip && table[id].times.Recurring()
    requires Answer(cal, table, r).end == Finished
    ensures var c := Answer(cal, table, r);
            && TimesOf(c.runs, id) == [r.now] && id in c.table
            && NextTime(cal, table[id].times, r.now) == Some(c.table[id].nextRun) && c.table[id].nextRun > r.now
  {
    var left := JobInCall(cal, table, r.order, r.now, RERUNS, r.patience, id);
    SkipTurn(cal, table[id], r.now, left);
    hide NextTime, TurnOf, RunDue, TimesOf;
  }
}
