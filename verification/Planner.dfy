/**
 * The search for the next planned instants. `NextRuns` walks the days of the horizon; what it
 * returns is characterized without reference to that walk, and stepping from each instant to the
 * next is shown to visit the same ones.
 */
module Planner {
  import opened Wrappers
  import opened Zones
  import opened Schedule
  import opened Listings
  import opened Calendar

  /** Days are proleptic Gregorian ordinals. */
  predicate Eligible(c: Config, day: int, anchor: int)
    requires c.frequency.EveryNDays? ==> c.frequency.interval >= 1
  {
    match c.frequency
    case Daily => true
    case EveryNDays(n) => (day - anchor) % n == 0
    case Weekly(days) => Weekday(day) in days
    case MonthlyDates(days) => DateOf(day).day in days
  }

  function Cutoff(now: int, startAfter: Option<int>): int {
    if startAfter.Some? then Max(now, startAfter.value) else now
  }

  function AnchorDay(c: Config, cutoff: int): int { c.startDate.GetOr(DayOf(Local(c.zone, cutoff))) }

  function FirstDay(c: Config, cutoff: int): int { Max(AnchorDay(c, cutoff), DayOf(Local(c.zone, cutoff))) }

  predicate Ended(c: Config, day: int) { c.endDate.Some? && day > c.endDate.value }

  /** What one day contributes: its candidates after the cutoff, if it is eligible and not past the end. */
  function DayRuns(c: Config, anchor: int, cutoff: int, day: int): seq<int>
    requires Valid(c)
  {
    if Ended(c, day) || !Eligible(c, day, anchor) then [] else Later(Candidates(c, day), cutoff)
  }

  /** What the days from `day` up to `stop` contribute. */
  function Collect(c: Config, anchor: int, cutoff: int, day: int, stop: int): seq<int>
    requires Valid(c)
    decreases stop - day
  {
    if day >= stop then [] else DayRuns(c, anchor, cutoff, day) + Collect(c, anchor, cutoff, day + 1, stop)
  }

  function Runs(c: Config, now: int, startAfter: Option<int>, count: int): seq<int>
    requires Valid(c)
  {
    var cutoff := Cutoff(now, startAfter);
    var first := FirstDay(c, cutoff);
    Take(Collect(c, AnchorDay(c, cutoff), cutoff, first, first + HORIZON), count)
  }

  // ----- the search as the program performs it -----

  /** One day of the search: append its later candidates until `count` are found. */
  method AppendDay(results: seq<int>, candidates: seq<int>, cutoff: int, count: int)
    returns (extended: seq<int>, full: bool)
    requires |results| < count
    ensures extended == Take(results + Later(candidates, cutoff), count)
    ensures full == (|extended| >= count)
    ensures !full ==> extended == results + Later(candidates, cutoff)
  {
    extended := results;
    var i := 0;
    while i < |candidates|
      invariant 0 <= i <= |candidates|
      invariant |extended| < count
      invariant extended + Later(candidates[i..], cutoff) == results + Later(candidates, cutoff)
    {
      var candidate := candidates[i];
      ghost var rest := Later(candidates[i + 1..], cutoff);
      assert candidates[i..][1..] == candidates[i + 1..];
      if candidate > cutoff {
        assert extended + ([candidate] + rest) == (extended + [candidate]) + rest;
        extended := extended + [candidate];
        if |extended| >= count {
          assert Take(extended + rest, count) == extended;
          return extended, true;
        }
      } else {
        assert [] + rest == rest;
      }
      i := i + 1;
    }
    assert extended + [] == extended;
    return extended, false;
  }

  method NextRuns(c: Config, now: int, startAfter: Option<int>, count: int) returns (results: seq<int>)
    requires Valid(c)
    ensures results == Runs(c, now, startAfter, count)
  {
    hide Collect, Local;
    var cutoff := if startAfter.Some? then Max(now, startAfter.value) else now;
    var localDate := DayOf(Local(c.zone, cutoff));
    var anchor := c.startDate.GetOr(localDate);
    var day := Max(anchor, localDate);
    if count <= 0 {
      results := [];
    } else {
      results := Search(c, anchor, cutoff, day, count);
    }
    assert anchor == AnchorDay(c, Cutoff(now, startAfter)) && day == FirstDay(c, Cutoff(now, startAfter));
  }

  /** The loop over the days of the horizon. */
  method Search(c: Config, anchor: int, cutoff: int, first: int, count: int) returns (results: seq<int>)
    requires Valid(c) && count > 0
    ensures results == Take(Collect(c, anchor, cutoff, first, first + HORIZON), count)
  {
    hide Eligible, Candidates;
    ghost var stop := first + HORIZON;
    ghost var rest := Collect(c, anchor, cutoff, first, stop);
    ghost var all := rest;
    results := [];
    var day := first;
    while day < first + HORIZON
      invariant first <= day <= stop
      invariant |results| < count
      invariant rest == Collect(c, anchor, cutoff, day, stop)
      invariant results + rest == all
    {
      if Ended(c, day) {
        CollectNothing(c, anchor, cutoff, day, stop);
        assert results + [] == results;
        return;
      }
      ghost var before, runs := results, DayRuns(c, anchor, cutoff, day);
      rest := Collect(c, anchor, cutoff, day + 1, stop);
      assert all == (before + runs) + rest by {
        assert before + (runs + rest) == (before + runs) + rest;
      }
      if Eligible(c, day, anchor) {
        var full;
        results, full := AppendDay(results, Candidates(c, day), cutoff, count);
        if full {
          return;
        }
      } else {
        assert before + runs == results;
      }
      day := day + 1;
    }
    assert results + [] == results;
  }

  lemma {:induction false} CollectNothing(c: Config, anchor: int, cutoff: int, day: int, stop: int)
    requires Valid(c) && Ended(c, day)
    ensures Collect(c, anchor, cutoff, day, stop) == []
    decreases stop - day
  {
    hide Eligible, Candidates;
    if day < stop {
      CollectNothing(c, anchor, cutoff, day + 1, stop);
    }
  }

  /** The first of them, or None for the error that the schedule has no future run. */
  method NextRunFor(c: Config, now: int, after: Option<int>) returns (run: Option<int>)
    requires Valid(c)
    ensures run == NextRun(c, now, after)
  {
    var runs := NextRuns(c, now, after, 1);
    run := if runs == [] then None else Some(runs[0]);
  }

  function NextRun(c: Config, now: int, after: Option<int>): Option<int>
    requires Valid(c)
  {
    var runs := Runs(c, now, after, 1);
    if runs == [] then None else Some(runs[0])
  }

  // ----- what the search returns -----

  ghost predicate Planned(c: Config, day: int, u: int)
    requires Valid(c)
  {
    Within(Candidates(c, day), u)
  }

  /** Planned on this eligible day, in `from` to before `limit` and within the end date, after the cutoff. */
  ghost predicate UpcomingOn(c: Config, anchor: int, from: int, cutoff: int, limit: int, day: int, u: int)
    requires Valid(c)
  {
    from <= day < limit && !Ended(c, day) && Eligible(c, day, anchor) && Planned(c, day, u) && u > cutoff
  }

  ghost predicate Upcoming(c: Config, anchor: int, from: int, cutoff: int, limit: int, u: int)
    requires Valid(c)
  {
    exists day :: UpcomingOn(c, anchor, from, cutoff, limit, day, u)
  }

  lemma PlannedIsAnchored(c: Config, day: int, u: int)
    requires Valid(c) && Planned(c, day, u)
    ensures Anchored(c, day, u)
  {
    hide Eligible, Candidates;
    CandidatesAreAnchored(c, day);
  }

  lemma DayRunsMeaning(c: Config, anchor: int, from: int, cutoff: int, limit: int, day: int, u: int)
    requires Valid(c) && from <= day < limit
    ensures Within(DayRuns(c, anchor, cutoff, day), u) <==> UpcomingOn(c, anchor, from, cutoff, limit, day, u)
  {
    hide Eligible, Candidates;
    LaterIsFilter(Candidates(c, day), cutoff, u);
  }

  lemma DayRunsAscend(c: Config, anchor: int, cutoff: int, day: int)
    requires Valid(c)
    ensures Ascending(DayRuns(c, anchor, cutoff, day))
  {
    hide Eligible, Candidates;
    CandidatesAreAnchored(c, day);
    LaterAscends(Candidates(c, day), cutoff);
  }

  lemma EarlierDayFirst(c: Config, anchor: int, cutoff: int, d: int, u: int, e: int, v: int)
    requires Valid(c) && d < e
    requires Within(DayRuns(c, anchor, cutoff, d), u) && Within(DayRuns(c, anchor, cutoff, e), v)
    ensures u < v
  {
    hide Eligible, Candidates;
    LaterIsFilter(Candidates(c, d), cutoff, u);
    LaterIsFilter(Candidates(c, e), cutoff, v);
    PlannedIsAnchored(c, d, u);
    PlannedIsAnchored(c, e, v);
    DaysAreOrdered(c, d, u, e, v);
  }

  lemma {:induction false} CollectHolds(c: Config, anchor: int, cutoff: int, day: int, stop: int, u: int)
    requires Valid(c)
    ensures Within(Collect(c, anchor, cutoff, day, stop), u)
       <==> exists d :: day <= d < stop && Within(DayRuns(c, anchor, cutoff, d), u)
    decreases stop - day
  {
    hide Eligible, Candidates;
    if day < stop {
      CollectHolds(c, anchor, cutoff, day + 1, stop, u);
      WithinConcat(DayRuns(c, anchor, cutoff, day), Collect(c, anchor, cutoff, day + 1, stop), u);
    }
  }

  lemma {:induction false} CollectAscends(c: Config, anchor: int, cutoff: int, day: int, stop: int)
    requires Valid(c)
    ensures Ascending(Collect(c, anchor, cutoff, day, stop))
    decreases stop - day
  {
    hide Eligible, Candidates;
    if day < stop {
      var head, rest := DayRuns(c, anchor, cutoff, day), Collect(c, anchor, cutoff, day + 1, stop);
      DayRunsAscend(c, anchor, cutoff, day);
      CollectAscends(c, anchor, cutoff, day + 1, stop);
      forall i, j | 0 <= i < |head| && 0 <= j < |rest|
        ensures head[i] < rest[j]
      {
        assert Within(head, head[i]) && Within(rest, rest[j]);
        CollectHolds(c, anchor, cutoff, day + 1, stop, rest[j]);
        var d :| day + 1 <= d < stop && Within(DayRuns(c, anchor, cutoff, d), rest[j]);
        EarlierDayFirst(c, anchor, cutoff, day, head[i], d, rest[j]);
      }
    }
  }

  lemma {:induction false} CollectSkips(c: Config, anchor: int, cutoff: int, day: int, next: int, stop: int)
    requires Valid(c) && day <= next
    ensures |Collect(c, anchor, cutoff, day, stop)| >= |Collect(c, anchor, cutoff, next, stop)|
    decreases next - day
  {
    hide Eligible, Candidates;
    if day < next {
      CollectSkips(c, anchor, cutoff, day + 1, next, stop);
    }
  }

  /** The walk over the days meets exactly what is upcoming from its first day on. */
  lemma WalkMeetsUpcoming(c: Config, anchor: int, cutoff: int, first: int, limit: int, u: int)
    requires Valid(c)
    ensures Within(Collect(c, anchor, cutoff, first, limit), u) <==> Upcoming(c, anchor, first, cutoff, limit, u)
  {
    hide Eligible, Candidates;
    CollectHolds(c, anchor, cutoff, first, limit, u);
    if d :| first <= d < limit && Within(DayRuns(c, anchor, cutoff, d), u) {
      DayRunsMeaning(c, anchor, first, cutoff, limit, d, u);
    }
    if d :| UpcomingOn(c, anchor, first, cutoff, limit, d, u) {
      DayRunsMeaning(c, anchor, first, cutoff, limit, d, u);
    }
  }

  /** `r` lists, in order, the first `count` upcoming instants, or all of them if there are fewer. */
  ghost predicate FirstUpcoming(c: Config, anchor: int, from: int, cutoff: int, limit: int, count: nat, r: seq<int>)
    requires Valid(c)
  {
    && |r| <= count
    && Ascending(r)
    && (forall k :: 0 <= k < |r| ==> Upcoming(c, anchor, from, cutoff, limit, r[k]))
    && (forall u :: Upcoming(c, anchor, from, cutoff, limit, u) && !Within(r, u) ==>
          |r| == count && forall k :: 0 <= k < |r| ==> r[k] < u)
  }

  lemma PrefixIsFirstUpcoming(c: Config, anchor: int, from: int, cutoff: int, limit: int, all: seq<int>, count: nat)
    requires Valid(c) && Ascending(all)
    requires forall u :: Within(all, u) <==> Upcoming(c, anchor, from, cutoff, limit, u)
    ensures FirstUpcoming(c, anchor, from, cutoff, limit, count, Take(all, count))
  {
    hide Eligible, Candidates;
    var r := Take(all, count);
    forall k | 0 <= k < |r|
      ensures Upcoming(c, anchor, from, cutoff, limit, r[k])
    {
      assert all[k] == r[k];
      assert Within(all, r[k]);
    }
    forall u | Upcoming(c, anchor, from, cutoff, limit, u) && !Within(r, u)
      ensures |r| == count && forall k :: 0 <= k < |r| ==> r[k] < u
    {
      assert Within(all, u);
      var k :| 0 <= k < |all| && all[k] == u;
      assert forall i :: 0 <= i < |r| ==> r[i] == all[i];
    }
  }

  /** There is only one such list. */
  lemma FirstUpcomingIsUnique(c: Config, anchor: int, from: int, cutoff: int, limit: int, count: nat, r: seq<int>, s: seq<int>)
    requires Valid(c) && FirstUpcoming(c, anchor, from, cutoff, limit, count, r)
    requires FirstUpcoming(c, anchor, from, cutoff, limit, count, s)
    ensures r == s
  {
    hide Eligible, Candidates;
    if r != s {
      var k := FirstDifference(r, s);
      if k < |r| && (k == |s| || r[k] < s[k]) {
        NotWithinBefore(s, r, k);
      } else {
        NotWithinBefore(r, s, k);
      }
    }
  }

  /** The search returns the first `count` of what is planned from its first day on. */
  lemma RunsStartAtFirstDay(c: Config, now: int, startAfter: Option<int>, count: nat)
    requires Valid(c)
    ensures var cutoff := Cutoff(now, startAfter);
            FirstUpcoming(c, AnchorDay(c, cutoff), FirstDay(c, cutoff), cutoff, FirstDay(c, cutoff) + HORIZON, count,
                          Runs(c, now, startAfter, count))
  {
    hide Eligible, Candidates;
    var cutoff := Cutoff(now, startAfter);
    var anchor, first := AnchorDay(c, cutoff), FirstDay(c, cutoff);
    var all := Collect(c, anchor, cutoff, first, first + HORIZON);
    CollectAscends(c, anchor, cutoff, first, first + HORIZON);
    forall u
      ensures Within(all, u) <==> Upcoming(c, anchor, first, cutoff, first + HORIZON, u)
    {
      WalkMeetsUpcoming(c, anchor, cutoff, first, first + HORIZON, u);
    }
    PrefixIsFirstUpcoming(c, anchor, first, cutoff, first + HORIZON, all, count);
  }

  // ----- the days of a schedule -----

  predicate Times(q: nat, n: nat, x: int) { x == q * n }

  /** A day for which the schedule plans runs, counting from `start` on: as the calendar has it. */
  ghost predicate OnPlan(c: Config, start: int, d: int) {
    && start <= d && (c.endDate.Some? ==> d <= c.endDate.value)
    && match c.frequency
       case Daily => true
       case EveryNDays(n) => var days := d - start; exists q: nat :: Times(q, n, days)
       case Weekly(days) => exists k :: k in days && (d - k) % 7 == 0
       case MonthlyDates(days) => exists date :: ValidDate(date) && date.day in days && Ordinal(date) == d
  }

  lemma EveryNth(n: nat, x: int)
    requires n >= 1 && x >= 0
    ensures x % n == 0 <==> exists q: nat :: Times(q, n, x)
  {
    if x % n == 0 {
      var q := x / n;
      assert x == n * q && q >= 0;
      assert Times(q, n, x);
    }
    if q: nat :| Times(q, n, x) {
      MultipleHasNoRemainder(n, q);
      assert n * q == q * n;
    }
  }

  /** These are the days that the search takes. */
  lemma DaysMean(c: Config, start: int, d: int)
    requires Valid(c) && start <= d
    ensures OnPlan(c, start, d) <==> !Ended(c, d) && Eligible(c, d, start)
  {
    match c.frequency
    case Daily =>
    case EveryNDays(n) => EveryNth(n, d - start);
    case Weekly(days) =>
      forall k | k in days
        ensures Weekday(d) == k <==> (d - k) % 7 == 0
      {
        WeekdayMeans(d, k);
      }
    case MonthlyDates(days) =>
      DateOfDay(d);
      forall date | ValidDate(date) && Ordinal(date) == d
        ensures date == DateOf(d)
      {
        DayOfDate(date);
      }
  }

  /** A run of the schedule, on one of the 3660 days from the first one on. */
  ghost predicate RunOn(c: Config, start: int, first: int, d: int, u: int)
    requires Valid(c)
  {
    first <= d < first + 3660 && OnPlan(c, start, d) && Planned(c, d, u)
  }

  predicate IsAfter(now: int, startAfter: Option<int>, u: int) { u > now && (startAfter.Some? ==> u > startAfter.value) }

  /**
   * The search in plain terms: its results ascend; each is a run planned on a day of the schedule, the
   * start day and the end day included, after both cutoffs; and of such runs, on the 3660 days from the
   * local date or the start day on, none is left out that is not later than `count` results.
   */
  lemma RunsInPlainTerms(c: Config, now: int, startAfter: Option<int>, count: nat)
    requires Valid(c)
    ensures var latest := if startAfter.Some? && startAfter.value > now then startAfter.value else now;
            var today := Local(c.zone, latest) / 86400;
            var start := if c.startDate.Some? then c.startDate.value else today;
            var first := if start > today then start else today;
            var r := Runs(c, now, startAfter, count);
            && |r| <= count && Ascending(r)
            && (forall k :: 0 <= k < |r| ==> IsAfter(now, startAfter, r[k]) && exists d :: RunOn(c, start, first, d, r[k]))
            && (forall d, u :: RunOn(c, start, first, d, u) && IsAfter(now, startAfter, u) ==>
                  Within(r, u) || (|r| == count && forall k :: 0 <= k < |r| ==> r[k] < u))
  {
    var cutoff := Cutoff(now, startAfter);
    var start, first := AnchorDay(c, cutoff), FirstDay(c, cutoff);
    var r := Runs(c, now, startAfter, count);
    hide Eligible, Candidates, Planned, Runs, OnPlan, Ended, Local;
    RunsStartAtFirstDay(c, now, startAfter, count);
    forall k | 0 <= k < |r|
      ensures r[k] > cutoff && exists d :: RunOn(c, start, first, d, r[k])
    {
      var d :| UpcomingOn(c, start, first, cutoff, first + HORIZON, d, r[k]);
      DaysMean(c, start, d);
      assert RunOn(c, start, first, d, r[k]);
    }
    forall d, u | RunOn(c, start, first, d, u) && u > cutoff
      ensures Within(r, u) || (|r| == count && forall k :: 0 <= k < |r| ==> r[k] < u)
    {
      DaysMean(c, start, d);
      assert UpcomingOn(c, start, first, cutoff, first + HORIZON, d, u);
      assert Upcoming(c, start, first, cutoff, first + HORIZON, u);
    }
  }

  /** The instants of a fixed time: when the clock first shows it, or, if it skips it, as much later as it skips. */
  lemma FixedTimeInPlainTerms(c: Config, d: int, u: int)
    requires Valid(c) && c.rule.Fixed?
    ensures var z, w := c.zone, d * 86400 + c.rule.time;
            Planned(c, d, u)
            <==> || (Local(z, u) == w && forall v :: Local(z, v) == w ==> u <= v)
                 || ((forall v :: Local(z, v) != w) && Local(z, u) == w + (z.after - z.before))
  {
    var z, w := c.zone, d * DAY + c.rule.time;
    assert Candidates(c, d) == [Localize(z, w).0];
    LocalizeMeaning(z, w);
    assert Planned(c, d, u) <==> u == Localize(z, w).0 by {
      assert [Localize(z, w).0][0] == Localize(z, w).0;
    }
  }

  /** The instant of a single random run: found like a fixed time, and dropped if the clock moves it out of its window. */
  lemma SingleDrawInPlainTerms(c: Config, d: int, u: int)
    requires Valid(c) && c.rule.Random? && c.rule.count == 1
    ensures var z, w := c.zone, d * 86400 + c.rule.start + c.draws.second(d) % (c.rule.end - c.rule.start + 1);
            Planned(c, d, u)
            <==> && ((Local(z, u) == w && forall v :: Local(z, v) == w ==> u <= v)
                     || ((forall v :: Local(z, v) != w) && Local(z, u) == w + (z.after - z.before)))
                 && d * 86400 + c.rule.start <= Local(z, u) <= d * 86400 + c.rule.end
  {
    var z, w := c.zone, d * DAY + c.rule.start + c.draws.second(d) % (c.rule.end - c.rule.start + 1);
    var (first, wall) := Localize(z, w);
    LocalizeMeaning(z, w);
    DayBounds(wall, d);
    assert Candidates(c, d) == if d * DAY + c.rule.start <= wall <= d * DAY + c.rule.end then [first] else [];
    assert [first][0] == first;
    assert Planned(c, d, u) <==> u == first && d * DAY + c.rule.start <= wall <= d * DAY + c.rule.end;
  }

  /** Mondays at 08:00 UTC. */
  function Mondays(): Config { Config(Zone(0, 0, 0), Fixed(28800), Weekly({1}), None, None, FirstDraws()) }

  /** On Sunday 31 December 2023 the next of them is on Monday 1 January 2024. */
  lemma NewYearMonday()
    ensures Ordinal(Date(2023, 12, 31)) == 738885 && Ordinal(Date(2024, 1, 1)) == 738886
    ensures Valid(Mondays())
    ensures NextRun(Mondays(), 738885 * 86400, None) == Some(738886 * 86400 + 28800)
  {
    var c, now := Mondays(), 738885 * DAY;
    assert Ordinal(Date(2024, 1, 1)) == 738886;
    assert Ordinal(Date(2023, 12, 31)) == 738885 by { YearLength(2023); }
    assert Eligible(c, 738886, 738885) && !Eligible(c, 738885, 738885);
    assert Candidates(c, 738886) == [738886 * DAY + 28800];
    MondayRuns(c, now);
  }

  lemma MondayRuns(c: Config, now: int)
    requires c == Mondays() && Valid(c) && now == 738885 * DAY
    requires Eligible(c, 738886, 738885) && !Eligible(c, 738885, 738885)
    requires Candidates(c, 738886) == [738886 * DAY + 28800]
    ensures NextRun(c, now, None) == Some(738886 * DAY + 28800)
  {
    hide Eligible, Candidates;
    var run, stop := 738886 * DAY + 28800, 738885 + HORIZON;
    assert DayRuns(c, 738885, now, 738885) == [];
    assert Later([run], now) == [run] by { assert [run][1..] == []; }
    assert Collect(c, 738885, now, 738886, stop)[0] == run;
    assert Collect(c, 738885, now, 738885, stop) == Collect(c, 738885, now, 738886, stop);
    assert FirstDay(c, now) == 738885;
  }

  // ----- what the search misses -----

  /** The result is what a schedule promises: nothing planned since the anchor and after the cutoff is left out. */
  ghost predicate Complete(c: Config, now: int, startAfter: Option<int>, count: nat)
    requires Valid(c)
  {
    var cutoff := Cutoff(now, startAfter);
    var anchor := AnchorDay(c, cutoff);
    FirstUpcoming(c, anchor, anchor, cutoff, FirstDay(c, cutoff) + HORIZON, count, Runs(c, now, startAfter, count))
  }

  /** No run of the schedule is carried over midnight; without a start date there is none to miss. */
  ghost predicate NothingIsCarried(c: Config)
    requires Valid(c)
  {
    c.startDate.Some? ==>
      forall d :: d >= c.startDate.value && !Ended(c, d) && Eligible(c, d, c.startDate.value) ==> !Carried(c, d)
  }

  /** The days before the search's first day have nothing left. */
  lemma UpcomingFromFirstDay(c: Config, cutoff: int, day: int, limit: int, u: int)
    requires Valid(c) && NothingIsCarried(c)
    requires UpcomingOn(c, AnchorDay(c, cutoff), AnchorDay(c, cutoff), cutoff, limit, day, u)
    ensures FirstDay(c, cutoff) <= day
  {
    hide Eligible, Candidates, Carried;
    PlannedIsAnchored(c, day, u);
    if c.startDate.Some? && day < DayOf(Local(c.zone, cutoff)) {
      EarlierDaysArePast(c, day, u, cutoff);
    }
  }

  lemma UpcomingSinceAnchor(c: Config, cutoff: int, limit: int, u: int)
    requires Valid(c) && NothingIsCarried(c)
    ensures var anchor := AnchorDay(c, cutoff);
            Upcoming(c, anchor, anchor, cutoff, limit, u) <==> Upcoming(c, anchor, FirstDay(c, cutoff), cutoff, limit, u)
  {
    hide Eligible, Candidates, NothingIsCarried;
    var anchor, first := AnchorDay(c, cutoff), FirstDay(c, cutoff);
    if d :| UpcomingOn(c, anchor, anchor, cutoff, limit, d, u) {
      UpcomingFromFirstDay(c, cutoff, d, limit, u);
      assert UpcomingOn(c, anchor, first, cutoff, limit, d, u);
    }
    if d :| UpcomingOn(c, anchor, first, cutoff, limit, d, u) {
      assert UpcomingOn(c, anchor, anchor, cutoff, limit, d, u);
    }
  }

  /**
   * Refinement: the search returns, in order, the first `count` of all instants planned strictly
   * after the cutoff on eligible days from the anchor up to the horizon and the end date.
   */
  lemma RunsAreFirstUpcoming(c: Config, now: int, startAfter: Option<int>, count: nat)
    requires Valid(c) && NothingIsCarried(c)
    ensures Complete(c, now, startAfter, count)
  {
    hide Eligible, Candidates, NothingIsCarried;
    var cutoff := Cutoff(now, startAfter);
    var anchor, first := AnchorDay(c, cutoff), FirstDay(c, cutoff);
    var limit := first + HORIZON;
    RunsStartAtFirstDay(c, now, startAfter, count);
    forall u
      ensures Upcoming(c, anchor, anchor, cutoff, limit, u) <==> Upcoming(c, anchor, first, cutoff, limit, u)
    {
      UpcomingSinceAnchor(c, cutoff, limit, u);
    }
  }

  /** When a carried run comes, the search one second before has already left its day. */
  lemma CarriedDayIsLeft(c: Config, d: int)
    requires Valid(c) && Carried(c, d)
    ensures var u := Localize(c.zone, d * DAY + c.rule.time).0; Planned(c, d, u) && d < FirstDay(c, u - 1)
  {
    var u := Localize(c.zone, d * DAY + c.rule.time).0;
    assert Candidates(c, d) == [u] && [u][0] == u;
  }

  /** A run whose day the search has left is missed. */
  lemma LeftDayIsMissed(c: Config, d: int, u: int)
    requires Valid(c) && c.startDate.Some? && c.startDate.value <= d < FirstDay(c, u - 1) && !Ended(c, d)
    requires Eligible(c, d, c.startDate.value) && Planned(c, d, u)
    ensures !Complete(c, u - 1, None, 1) && NextRun(c, u - 1, None) != Some(u)
  {
    hide Valid, Eligible, Candidates, FirstDay, Planned, Ended, Runs;
    var start, first := c.startDate.value, FirstDay(c, u - 1);
    var limit := first + HORIZON;
    assert UpcomingOn(c, start, start, u - 1, limit, d, u);
    RunsStartAtFirstDay(c, u - 1, None, 1);
    var r := Runs(c, u - 1, None, 1);
    if r != [] {
      var e :| UpcomingOn(c, start, first, u - 1, limit, e, r[0]);
      PlannedIsAnchored(c, d, u);
      PlannedIsAnchored(c, e, r[0]);
      DaysAreOrdered(c, d, u, e, r[0]);
    }
    assert !Within(r, u);
  }

  /** A carried run is missed by the search that starts one second before it. */
  lemma CarriedRunIsMissed(c: Config, d: int)
    requires Valid(c) && c.startDate.Some? && d >= c.startDate.value && !Ended(c, d)
    requires Eligible(c, d, c.startDate.value) && Carried(c, d)
    ensures var u := Localize(c.zone, d * DAY + c.rule.time).0;
            !Complete(c, u - 1, None, 1) && NextRun(c, u - 1, None) != Some(u)
  {
    CarriedDayIsLeft(c, d);
    LeftDayIsMissed(c, d, Localize(c.zone, d * DAY + c.rule.time).0);
  }

  /**
   * Exactly when nothing is missed: whatever is asked of a schedule, whenever, the search returns
   * what it promises, if and only if none of its runs is carried over midnight.
   */
  lemma NothingIsMissedExactly(c: Config)
    requires Valid(c)
    ensures NothingIsCarried(c) <==> forall now, startAfter, count: nat :: Complete(c, now, startAfter, count)
  {
    hide Eligible, Candidates, Carried, Complete;
    if NothingIsCarried(c) {
      forall now, startAfter, count: nat
        ensures Complete(c, now, startAfter, count)
      {
        RunsAreFirstUpcoming(c, now, startAfter, count);
      }
    } else {
      var d :| d >= c.startDate.value && !Ended(c, d) && Eligible(c, d, c.startDate.value) && Carried(c, d);
      CarriedRunIsMissed(c, d);
    }
  }

  function FirstDraws(): Draws {
    Draws(_ => 0, (d: int, n: nat, k: nat) => seq(k, i requires 0 <= i => i))
  }

  /** Every day at this second, from day 0 on, in a zone whose clock jumps from 23:30 to 00:30 in the night after day 0. */
  function NightJump(time: int): Config {
    Config(Zone(0, 3600, 84600), Fixed(time), Daily, Some(0), None, FirstDraws())
  }

  /** In that zone a run at 23:45 is carried and missed, and one at 08:00 is not: the zone alone does not decide. */
  lemma JumpOverMidnight()
    ensures Valid(NightJump(85500)) && Carried(NightJump(85500), 0)
    ensures !NothingIsCarried(NightJump(85500)) && NextRun(NightJump(85500), 85499, None) != Some(85500)
    ensures Valid(NightJump(28800)) && NothingIsCarried(NightJump(28800))
  {
    NightJumpIsValid(85500);
    NightJumpIsValid(28800);
    var late, early := NightJump(85500), NightJump(28800);
    assert Eligible(late, 0, 0) && !Ended(late, 0);
    assert Localize(late.zone, 85500).0 == 85500;
    hide Valid, Eligible, Candidates, NextRun, Complete;
    CarriedRunIsMissed(late, 0);
    forall d | Carried(early, d)
      ensures false
    {
      OnlySkippedTimesAreCarried(early, d);
    }
  }

  lemma NightJumpIsValid(time: int)
    requires 0 <= time < DAY
    ensures Valid(NightJump(time))
  {
  }

  // ----- stepping -----

  /** `n` successive calls of `next_run_for`, each starting after the previous result. */
  function Steps(c: Config, now: int, after: Option<int>, n: nat): Option<seq<int>>
    requires Valid(c)
    decreases n
  {
    if n == 0 then Some([])
    else
      match NextRun(c, now, after)
      case None => None
      case Some(run) =>
        match Steps(c, now, Some(run), n - 1)
        case None => None
        case Some(rest) => Some([run] + rest)
  }

  /** Whatever is planned after a planned instant is planned on its local date or later, even if it was carried. */
  lemma NoDayIsSkipped(c: Config, d: int, u: int, e: int, v: int)
    requires Valid(c) && Planned(c, d, u) && Planned(c, e, v) && u < v
    ensures DayOf(Local(c.zone, u)) <= e
  {
    hide Eligible, Candidates;
    PlannedIsAnchored(c, d, u);
    PlannedIsAnchored(c, e, v);
    LocalDayOfPlanned(c, d, u);
    if e < d {
      DaysAreOrdered(c, e, v, d, u);
    }
  }

  /** After a result the search starts no earlier than before, and leaves out no later day. */
  lemma SearchMovesOn(c: Config, anchor: int, cutoff: int, limit: int, d: int, u: int)
    requires Valid(c) && UpcomingOn(c, anchor, FirstDay(c, cutoff), cutoff, limit, d, u)
    ensures FirstDay(c, cutoff) <= FirstDay(c, u)
    ensures forall e, v :: UpcomingOn(c, anchor, FirstDay(c, cutoff), cutoff, limit, e, v) && u < v ==> FirstDay(c, u) <= e
  {
    hide Eligible, Candidates, Planned;
    PlannedIsAnchored(c, d, u);
    FirstOccurrencesAscend(c.zone, cutoff, u);
    DayBounds(Local(c.zone, cutoff), DayOf(Local(c.zone, cutoff)));
    DayBounds(Local(c.zone, u), DayOf(Local(c.zone, u)));
    forall e, v | UpcomingOn(c, anchor, FirstDay(c, cutoff), cutoff, limit, e, v) && u < v
      ensures FirstDay(c, u) <= e
    {
      NoDayIsSkipped(c, d, u, e, v);
    }
  }

  /** What is upcoming after `u` with a longer horizon was upcoming before, or lies on a later day. */
  lemma UpcomingLater(c: Config, anchor: int, from: int, next: int, cutoff: int, limit: int, more: int, u: int, v: int)
    requires Valid(c) && cutoff < u && limit <= more && from <= next
    requires forall e, x :: UpcomingOn(c, anchor, from, cutoff, limit, e, x) && u < x ==> next <= e
    ensures Upcoming(c, anchor, from, cutoff, limit, v) && v > u ==> Upcoming(c, anchor, next, u, more, v)
    ensures Upcoming(c, anchor, next, u, more, v) && !Upcoming(c, anchor, from, cutoff, limit, v) ==>
              forall w :: Upcoming(c, anchor, from, cutoff, limit, w) ==> w < v
  {
    hide Eligible, Candidates;
    if d :| UpcomingOn(c, anchor, from, cutoff, limit, d, v) && v > u {
      assert UpcomingOn(c, anchor, next, u, more, d, v);
    }
    if Upcoming(c, anchor, next, u, more, v) && !Upcoming(c, anchor, from, cutoff, limit, v) {
      var d :| UpcomingOn(c, anchor, next, u, more, d, v);
      assert d < limit ==> UpcomingOn(c, anchor, from, cutoff, limit, d, v);
      forall w | Upcoming(c, anchor, from, cutoff, limit, w)
        ensures w < v
      {
        var e :| UpcomingOn(c, anchor, from, cutoff, limit, e, w);
        PlannedIsAnchored(c, e, w);
        PlannedIsAnchored(c, d, v);
        DaysAreOrdered(c, e, w, d, v);
      }
    }
  }

  /** Past the first result, the remaining ones are the first upcoming ones after it. */
  lemma RestIsFirstUpcoming(c: Config, anchor: int, cutoff: int, r: seq<int>)
    requires Valid(c) && r != []
    requires FirstUpcoming(c, anchor, FirstDay(c, cutoff), cutoff, FirstDay(c, cutoff) + HORIZON, |r|, r)
    ensures FirstUpcoming(c, anchor, FirstDay(c, r[0]), r[0], FirstDay(c, r[0]) + HORIZON, |r| - 1, r[1..])
  {
    hide Eligible, Candidates, Planned;
    var from, next := FirstDay(c, cutoff), FirstDay(c, r[0]);
    var limit, more, rest := from + HORIZON, next + HORIZON, r[1..];
    var day :| UpcomingOn(c, anchor, from, cutoff, limit, day, r[0]);
    SearchMovesOn(c, anchor, cutoff, limit, day, r[0]);
    hide FirstDay;
    forall k | 0 <= k < |rest|
      ensures Upcoming(c, anchor, next, r[0], more, rest[k])
    {
      assert rest[k] == r[k + 1];
      UpcomingLater(c, anchor, from, next, cutoff, limit, more, r[0], r[k + 1]);
    }
    forall u | Upcoming(c, anchor, next, r[0], more, u) && !Within(rest, u)
      ensures forall k :: 0 <= k < |rest| ==> rest[k] < u
    {
      UpcomingLater(c, anchor, from, next, cutoff, limit, more, r[0], u);
      WithinConcat([r[0]], rest, u);
      assert r == [r[0]] + rest && u > r[0];
    }
  }

  /** Which days are eligible does not depend on when the search is made. */
  predicate FixedDays(c: Config) { c.startDate.Some? || !c.frequency.EveryNDays? }

  /** So the anchor of a search may be replaced by that of another. */
  lemma AnchorIsIrrelevant(c: Config, a: int, b: int, from: int, cutoff: int, limit: int, count: nat, r: seq<int>)
    requires Valid(c) && (a == b || !c.frequency.EveryNDays?)
    requires FirstUpcoming(c, a, from, cutoff, limit, count, r)
    ensures FirstUpcoming(c, b, from, cutoff, limit, count, r)
  {
    hide Eligible, Candidates, Planned;
    forall u
      ensures Upcoming(c, a, from, cutoff, limit, u) <==> Upcoming(c, b, from, cutoff, limit, u)
    {
      if d :| UpcomingOn(c, a, from, cutoff, limit, d, u) {
        EligibleFromAnywhere(c, d, a, b);
        assert UpcomingOn(c, b, from, cutoff, limit, d, u);
      }
      if d :| UpcomingOn(c, b, from, cutoff, limit, d, u) {
        EligibleFromAnywhere(c, d, a, b);
        assert UpcomingOn(c, a, from, cutoff, limit, d, u);
      }
    }
  }

  lemma EligibleFromAnywhere(c: Config, day: int, a: int, b: int)
    requires Valid(c) && (a == b || !c.frequency.EveryNDays?)
    ensures Eligible(c, day, a) <==> Eligible(c, day, b)
  {
  }

  /** After the first result, the search continues with the remaining ones. */
  lemma RestOfRuns(c: Config, now: int, after: Option<int>, n: nat)
    requires Valid(c) && FixedDays(c) && n >= 1 && |Runs(c, now, after, n)| == n
    ensures var r := Runs(c, now, after, n);
            NextRun(c, now, after) == Some(r[0]) && Runs(c, now, Some(r[0]), n - 1) == r[1..]
  {
    RunsAfterFirst(c, now, after, n);
    FirstOfRuns(c, now, after, n);
  }

  lemma FirstOfRuns(c: Config, now: int, after: Option<int>, n: nat)
    requires Valid(c) && n >= 1 && |Runs(c, now, after, n)| == n
    ensures NextRun(c, now, after) == Some(Runs(c, now, after, n)[0])
  {
    hide Eligible, Candidates, Collect;
  }

  /** The first upcoming instant comes after the cutoff. */
  lemma FirstIsLater(c: Config, anchor: int, from: int, cutoff: int, limit: int, count: nat, r: seq<int>)
    requires Valid(c) && FirstUpcoming(c, anchor, from, cutoff, limit, count, r) && r != []
    ensures r[0] > cutoff
  {
    hide Eligible, Candidates;
    assert Upcoming(c, anchor, from, cutoff, limit, r[0]);
  }

  lemma CutoffAtRun(c: Config, now: int, after: Option<int>, run: int)
    requires FixedDays(c)
    ensures AnchorDay(c, Cutoff(now, after)) == AnchorDay(c, run) || !c.frequency.EveryNDays?
    ensures run > Cutoff(now, after) ==> Cutoff(now, Some(run)) == run
  {
  }

  /** Past the first result, the search returns the remaining ones. */
  lemma RunsAfterFirst(c: Config, now: int, after: Option<int>, n: nat)
    requires Valid(c) && FixedDays(c) && n >= 1 && |Runs(c, now, after, n)| == n
    ensures var r := Runs(c, now, after, n); Runs(c, now, Some(r[0]), n - 1) == r[1..]
  {
    hide *;
    var r, cutoff := Runs(c, now, after, n), Cutoff(now, after);
    var anchor, next, from := AnchorDay(c, cutoff), AnchorDay(c, r[0]), FirstDay(c, r[0]);
    CutoffAtRun(c, now, after, r[0]);
    RunsStartAtFirstDay(c, now, after, n);
    FirstIsLater(c, anchor, FirstDay(c, cutoff), cutoff, FirstDay(c, cutoff) + HORIZON, n, r);
    RestIsFirstUpcoming(c, anchor, cutoff, r);
    AnchorIsIrrelevant(c, anchor, next, from, r[0], from + HORIZON, n - 1, r[1..]);
    RunsStartAtFirstDay(c, now, Some(r[0]), n - 1);
    FirstUpcomingIsUnique(c, next, from, r[0], from + HORIZON, n - 1, r[1..], Runs(c, now, Some(r[0]), n - 1));
  }

  /**
   * Stepping: whenever the search returns all `n` instants it was asked for, `n` successive single
   * searches, each after the previous result, return the same instants, whatever the clock changes do.
   * Only a schedule for every n days needs a start date, or each search would count from its own cutoff.
   */
  lemma {:induction false} SteppingRepeatsAndLosesNothing(c: Config, now: int, after: Option<int>, n: nat)
    requires Valid(c) && FixedDays(c) && |Runs(c, now, after, n)| == n
    ensures Steps(c, now, after, n) == Some(Runs(c, now, after, n))
    decreases n
  {
    hide Runs, NextRun;
    if n > 0 {
      var r := Runs(c, now, after, n);
      RestOfRuns(c, now, after, n);
      SteppingRepeatsAndLosesNothing(c, now, Some(r[0]), n - 1);
      assert Steps(c, now, Some(r[0]), n - 1) == Some(r[1..]);
      assert r == [r[0]] + r[1..];
    }
  }

  // ----- the horizon suffices -----

  /** Days after which an eligible day has certainly passed. */
  function Period(c: Config): nat {
    match c.frequency
    case Daily => 1
    case EveryNDays(n) => n
    case Weekly(_) => 7
    case MonthlyDates(_) => 62
  }

  lemma EveryPeriodHasAnEligibleDay(c: Config, anchor: int, from: int) returns (day: int)
    requires Valid(c)
    ensures from <= day < from + Period(c) && Eligible(c, day, anchor)
  {
    match c.frequency
    case Daily => day := from;
    case EveryNDays(n) =>
      var k := (from - anchor) % n;
      day := if k == 0 then from else from + n - k;
      NextMultiple(from - anchor, n);
    case Weekly(days) =>
      var target :| target in days;
      day := NextWeekday(from, target);
    case MonthlyDates(days) =>
      var target :| target in days;
      day := NextMonthDay(from, target);
  }

  /** Of two consecutive months one has 31 days, so that any day of the month comes within 62 days. */
  lemma NextMonthDay(from: int, target: int) returns (day: int)
    requires 1 <= target <= 31
    ensures from <= day < from + 62 && DateOf(day).day == target
  {
    DateOfDay(from);
    var today := DateOf(from);
    var date := Date(today.year, today.month, target);
    if target < today.day || !ValidDate(date) {
      var next := FirstOfNextMonth(today);
      date := Date(next.year, next.month, target);
      if !ValidDate(date) {
        var later := FirstOfNextMonth(next);
        date := Date(later.year, later.month, target);
      }
    }
    day := Ordinal(date);
    DayOfDate(date);
  }

  lemma NextWeekday(from: int, target: int) returns (day: int)
    requires 1 <= target <= 7
    ensures from <= day < from + 7 && Weekday(day) == target
  {
    day := from + (target - Weekday(from) + 7) % 7;
  }

  lemma NextMultiple(x: int, n: nat)
    requires n >= 1
    ensures x % n == 0 || (x + n - x % n) % n == 0
  {
    var q, k := x / n, x % n;
    assert x == n * q + k;
    assert x + n - k == n * (q + 1);
    MultipleHasNoRemainder(n, q + 1);
  }

  lemma MultipleHasNoRemainder(n: nat, q: int)
    requires n >= 1
    ensures (n * q) % n == 0
  {
    var r, d := (n * q) % n, (n * q) / n;
    assert n * q == n * d + r && 0 <= r < n;
    assert n * (q - d) == r;
    assert q - d >= 1 ==> n * (q - d) >= n;
    assert q - d <= -1 ==> n * (q - d) <= 0 - n;
  }

  lemma FixedDayContributes(c: Config, anchor: int, cutoff: int, day: int)
    requires Valid(c) && c.endDate == None && c.rule.Fixed? && Eligible(c, day, anchor)
    requires day >= DayOf(Local(c.zone, cutoff)) + 2
    ensures |DayRuns(c, anchor, cutoff, day)| >= 1
  {
    var s := Candidates(c, day);
    assert s[0] > cutoff;
    assert Later(s, cutoff)[0] == s[0];
  }

  lemma DayAddsToCollect(c: Config, anchor: int, cutoff: int, day: int, d: int, next: int, stop: int)
    requires Valid(c) && c.endDate == None && c.rule.Fixed? && Eligible(c, d, anchor)
    requires DayOf(Local(c.zone, cutoff)) + 2 <= day <= d < next <= stop
    ensures |Collect(c, anchor, cutoff, day, stop)| >= 1 + |Collect(c, anchor, cutoff, next, stop)|
  {
    hide Eligible, Candidates;
    FixedDayContributes(c, anchor, cutoff, d);
    CollectSkips(c, anchor, cutoff, day, d, stop);
    CollectSkips(c, anchor, cutoff, d + 1, next, stop);
    assert Collect(c, anchor, cutoff, d, stop)
        == DayRuns(c, anchor, cutoff, d) + Collect(c, anchor, cutoff, d + 1, stop);
  }

  /** `k` periods contribute at least `k` runs. */
  lemma {:induction false} PeriodsContribute(c: Config, anchor: int, cutoff: int, day: int, stop: int, p: nat, k: nat)
    requires Valid(c) && c.endDate == None && c.rule.Fixed? && p == Period(c)
    requires day >= DayOf(Local(c.zone, cutoff)) + 2 && day + k * p <= stop
    ensures |Collect(c, anchor, cutoff, day, stop)| >= k
    decreases k
  {
    hide Eligible, Candidates;
    if k > 0 {
      var d := EveryPeriodHasAnEligibleDay(c, anchor, day);
      PeriodsContribute(c, anchor, cutoff, day + p, stop, p, k - 1);
      DayAddsToCollect(c, anchor, cutoff, day, d, day + p, stop);
    }
  }

  /**
   * Horizon: for a fixed time without end date, whatever the frequency, the search returns
   * exactly `count` instants for every count up to 10, so that `next_run_for` never fails.
   */
  lemma HorizonSuffices(c: Config, now: int, startAfter: Option<int>, count: nat)
    requires Valid(c) && c.endDate == None && c.rule.Fixed? && count <= 10
    ensures |Runs(c, now, startAfter, count)| == count
    ensures NextRun(c, now, startAfter).Some?
  {
    hide Eligible, Candidates;
    var cutoff := Cutoff(now, startAfter);
    var anchor, first := AnchorDay(c, cutoff), FirstDay(c, cutoff);
    CollectSkips(c, anchor, cutoff, first, first + 2, first + HORIZON);
    assert 2 + 10 * Period(c) <= HORIZON;
    PeriodsContribute(c, anchor, cutoff, first + 2, first + HORIZON, Period(c), 10);
  }
}
