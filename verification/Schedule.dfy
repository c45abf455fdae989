/**
 * The schedule planner: which instants a schedule plans on a local day, and the search for the
 * next ones over a horizon of 3660 days.
 *
 * The hashed second of a single random run and the seeded sample of a multi-run day are parameters
 * (`Draws`); the sample is a choice of distinct positions.
 */
module Schedule {
  import opened Wrappers
  import opened Zones
  import opened Listings

  const HORIZON: nat := 3660

  datatype Draws = Draws(second: int -> nat, sample: (int, nat, nat) -> seq<nat>)

  /** Clock times are seconds since midnight. */
  datatype Rule = Fixed(time: int) | Random(start: int, end: int, count: nat)

  datatype Frequency = Daily | EveryNDays(interval: nat) | Weekly(weekdays: set<nat>) | MonthlyDates(days: set<nat>)

  datatype Config = Config(zone: Zone, rule: Rule, frequency: Frequency, startDate: Option<int>,
                           endDate: Option<int>, draws: Draws)

  ghost predicate ValidSample(s: seq<nat>, n: nat, k: nat) {
    && |s| == k
    && (forall i :: 0 <= i < |s| ==> s[i] < n)
    && (forall i, j :: 0 <= i < j < |s| ==> s[i] != s[j])
  }

  /** `ScheduleConfig` after validation, in a zone whose clock change is shorter than a day. */
  ghost predicate Valid(c: Config) {
    && ZoneOk(c.zone)
    && (match c.rule
        case Fixed(time) => 0 <= time < DAY
        case Random(start, end, count) => 0 <= start < end < DAY && 1 <= count <= end - start + 1)
    && (match c.frequency
        case Daily => true
        case EveryNDays(n) => 1 <= n <= 365
        case Weekly(days) => days != {} && forall d :: d in days ==> 1 <= d <= 7
        case MonthlyDates(days) => days != {} && forall d :: d in days ==> 1 <= d <= 31)
    && forall d, n, k :: k <= n ==> ValidSample(c.draws.sample(d, n, k), n, k)
  }

  // ----- the instants of one day -----

  /** A first-occurrence second of the local day inside the window. */
  predicate Real(z: Zone, day: int, start: int, end: int, u: int) {
    DayOf(Local(z, u)) == day && start <= ClockOf(Local(z, u)) <= end && FoldOf(z, u) == 0
  }

  function Lower(z: Zone, day: int, start: int): int {
    Min(ToUtc(z, day * DAY + start, 0), ToUtc(z, day * DAY + start, 1))
  }

  function Upper(z: Zone, day: int, end: int): int {
    Max(ToUtc(z, day * DAY + end, 0), ToUtc(z, day * DAY + end, 1))
  }

  /** No clock change between the ends of the window: every second in between is taken. */
  predicate Plain(z: Zone, day: int, start: int, end: int) {
    var lower, upper := Lower(z, day, start), Upper(z, day, end);
    && Local(z, lower) == day * DAY + start && Local(z, upper) == day * DAY + end
    && Offset(z, lower) == Offset(z, upper)
  }

  /** The offsets from `from` up to `stop` that the slow path keeps. */
  function Scan(z: Zone, lower: int, day: int, start: int, end: int, from: nat, stop: nat): seq<nat>
    decreases stop - from
  {
    if from >= stop then []
    else (if Real(z, day, start, end, lower + from) then [from] else [])
         + Scan(z, lower, day, start, end, from + 1, stop)
  }

  /** `len(range(int((upper - lower).total_seconds()) + 1))`. */
  function Span(z: Zone, day: int, start: int, end: int): nat {
    Max(0, Upper(z, day, end) - Lower(z, day, start) + 1)
  }

  function Offsets(z: Zone, day: int, start: int, end: int): seq<nat> {
    var lower, n := Lower(z, day, start), Span(z, day, start, end);
    if Plain(z, day, start, end) then seq(n, i requires 0 <= i => i) else Scan(z, lower, day, start, end, 0, n)
  }

  function Insert(x: nat, s: seq<nat>): seq<nat> {
    if s == [] || x <= s[0] then [x] + s else [s[0]] + Insert(x, s[1..])
  }

  function Sort(s: seq<nat>): (r: seq<nat>)
  {
    if s == [] then [] else Insert(s[0], Sort(s[1..]))
  }

  function Chosen(offsets: seq<nat>, positions: seq<nat>): seq<nat>
    requires forall i :: 0 <= i < |positions| ==> positions[i] < |offsets|
  {
    seq(|positions|, i requires 0 <= i < |positions| => offsets[positions[i]])
  }

  function RandomOccurrences(c: Config, day: int): seq<int>
    requires Valid(c) && c.rule.Random?
  {
    var offsets := Offsets(c.zone, day, c.rule.start, c.rule.end);
    if |offsets| < c.rule.count then []
    else
      var lower := Lower(c.zone, day, c.rule.start);
      assert ValidSample(c.draws.sample(day, |offsets|, c.rule.count), |offsets|, c.rule.count);
      var selected := Sort(Chosen(offsets, c.draws.sample(day, |offsets|, c.rule.count)));
      seq(|selected|, i requires 0 <= i < |selected| => lower + selected[i])
  }

  function Candidates(c: Config, day: int): seq<int>
    requires Valid(c)
  {
    match c.rule
    case Fixed(time) => [Localize(c.zone, day * DAY + time).0]
    case Random(start, end, count) =>
      if count > 1 then RandomOccurrences(c, day)
      else
        var naive := day * DAY + start + c.draws.second(day) % (end - start + 1);
        var (u, wall) := Localize(c.zone, naive);
        if DayOf(wall) != day || !(start <= ClockOf(wall) <= end) then [] else [u]
  }

  // ----- exactness of the random window -----

  ghost predicate AscendingNat(s: seq<nat>) { forall i, j :: 0 <= i < j < |s| ==> s[i] < s[j] }

  /** Every real second of the window lies between the two ends. */
  lemma WindowCovers(z: Zone, day: int, start: int, end: int, u: int)
    requires 0 <= start < end < DAY && Real(z, day, start, end, u)
    ensures Lower(z, day, start) <= u <= Upper(z, day, end)
  {
    DayBounds(Local(z, u), day);
  }

  /** Without a clock change in between, every second between the ends is real. */
  lemma PlainIsReal(z: Zone, day: int, start: int, end: int, u: int)
    requires 0 <= start < end < DAY && Plain(z, day, start, end)
    requires Lower(z, day, start) <= u <= Upper(z, day, end)
    ensures Real(z, day, start, end, u)
  {
    DayBounds(Local(z, u), day);
  }

  lemma {:induction false} ScanIsExact(z: Zone, lower: int, day: int, start: int, end: int, from: nat, stop: nat)
    requires from <= stop
    ensures AscendingNat(Scan(z, lower, day, start, end, from, stop))
    ensures forall x :: x in Scan(z, lower, day, start, end, from, stop)
                        <==> from <= x < stop && Real(z, day, start, end, lower + x)
    decreases stop - from
  {
    if from < stop {
      ScanIsExact(z, lower, day, start, end, from + 1, stop);
      var rest := Scan(z, lower, day, start, end, from + 1, stop);
      assert forall i :: 0 <= i < |rest| ==> rest[i] in rest;
    }
  }

  lemma PlainOffsetsAreExact(z: Zone, day: int, start: int, end: int, x: nat)
    requires 0 <= start < end < DAY && Plain(z, day, start, end)
    ensures x in Offsets(z, day, start, end) <==> Real(z, day, start, end, Lower(z, day, start) + x)
  {
    var s, u := Offsets(z, day, start, end), Lower(z, day, start) + x;
    if u <= Upper(z, day, end) {
      PlainIsReal(z, day, start, end, u);
      assert s[x] == x;
    } else if Real(z, day, start, end, u) {
      WindowCovers(z, day, start, end, u);
      assert false;
    }
  }

  lemma ScanOffsetsAreExact(z: Zone, day: int, start: int, end: int, x: nat)
    requires 0 <= start < end < DAY && !Plain(z, day, start, end)
    ensures AscendingNat(Offsets(z, day, start, end))
    ensures x in Offsets(z, day, start, end) <==> Real(z, day, start, end, Lower(z, day, start) + x)
  {
    hide Real, Plain, Lower, Upper, Scan;
    var lower := Lower(z, day, start);
    ScanIsExact(z, lower, day, start, end, 0, Span(z, day, start, end));
    if Real(z, day, start, end, lower + x) {
      WindowCovers(z, day, start, end, lower + x);
    }
  }

  /**
   * The offsets considered, by the plain range or by the filtered scan, are exactly the real
   * first-occurrence seconds of that local day inside the window, in order.
   */
  lemma OffsetsAreExact(z: Zone, day: int, start: int, end: int)
    requires 0 <= start < end < DAY
    ensures AscendingNat(Offsets(z, day, start, end))
    ensures forall x: nat :: x in Offsets(z, day, start, end) <==> Real(z, day, start, end, Lower(z, day, start) + x)
    ensures forall u :: Real(z, day, start, end, u) ==> Lower(z, day, start) <= u <= Upper(z, day, end)
  {
    hide Real, Plain, Lower, Upper;
    if !Plain(z, day, start, end) {
      ScanOffsetsAreExact(z, day, start, end, 0);
    }
    forall x: nat
      ensures x in Offsets(z, day, start, end) <==> Real(z, day, start, end, Lower(z, day, start) + x)
    {
      if Plain(z, day, start, end) {
        PlainOffsetsAreExact(z, day, start, end, x);
      } else {
        ScanOffsetsAreExact(z, day, start, end, x);
      }
    }
    forall u | Real(z, day, start, end, u)
      ensures Lower(z, day, start) <= u <= Upper(z, day, end)
    {
      WindowCovers(z, day, start, end, u);
    }
  }

  lemma {:induction false} InsertSorts(x: nat, s: seq<nat>)
    requires AscendingNat(s) && x !in s
    ensures AscendingNat(Insert(x, s)) && |Insert(x, s)| == |s| + 1
    ensures forall y :: y in Insert(x, s) <==> y == x || y in s
  {
    if s != [] && x > s[0] {
      assert s == [s[0]] + s[1..];
      InsertSorts(x, s[1..]);
      var r := Insert(x, s[1..]);
      forall i | 0 <= i < |r|
        ensures s[0] < r[i]
      {
        assert r[i] in r;
        if r[i] != x {
          var k :| 0 <= k < |s[1..]| && s[1..][k] == r[i];
          assert s[k + 1] == r[i];
        }
      }
    }
  }

  lemma {:induction false} SortSorts(s: seq<nat>)
    requires forall i, j :: 0 <= i < j < |s| ==> s[i] != s[j]
    ensures AscendingNat(Sort(s)) && |Sort(s)| == |s|
    ensures forall y :: y in Sort(s) <==> y in s
  {
    if s != [] {
      assert s == [s[0]] + s[1..];
      SortSorts(s[1..]);
      assert s[0] !in s[1..];
      InsertSorts(s[0], Sort(s[1..]));
    }
  }

  /**
   * The plan of a day with several runs: empty if the window has fewer real seconds than runs,
   * otherwise exactly that many real seconds, ascending in UTC.
   */
  lemma RandomPlanIsExact(c: Config, day: int)
    requires Valid(c) && c.rule.Random?
    ensures var plan := RandomOccurrences(c, day);
            var available := |Offsets(c.zone, day, c.rule.start, c.rule.end)|;
            && |plan| == (if available < c.rule.count then 0 else c.rule.count)
            && Ascending(plan)
            && (forall i :: 0 <= i < |plan| ==> Real(c.zone, day, c.rule.start, c.rule.end, plan[i]))
  {
    hide Offsets, Real, Localize;
    var offsets := Offsets(c.zone, day, c.rule.start, c.rule.end);
    OffsetsAreExact(c.zone, day, c.rule.start, c.rule.end);
    if |offsets| >= c.rule.count {
      var positions := c.draws.sample(day, |offsets|, c.rule.count);
      assert ValidSample(positions, |offsets|, c.rule.count);
      var chosen := Chosen(offsets, positions);
      ChosenAreDistinct(offsets, positions);
      SortSorts(chosen);
      var selected, plan := Sort(chosen), RandomOccurrences(c, day);
      var lower := Lower(c.zone, day, c.rule.start);
      forall i | 0 <= i < |plan|
        ensures Real(c.zone, day, c.rule.start, c.rule.end, plan[i])
      {
        assert plan[i] == lower + selected[i];
        assert selected[i] in selected;
        assert selected[i] in chosen;
        assert selected[i] in offsets;
      }
    }
  }

  /** The plan also ascends on the wall clock. */
  lemma RandomPlanAscendsOnTheWall(c: Config, day: int, i: nat, j: nat)
    requires Valid(c) && c.rule.Random? && i < j < |RandomOccurrences(c, day)|
    ensures var plan := RandomOccurrences(c, day); Local(c.zone, plan[i]) < Local(c.zone, plan[j])
  {
    RandomPlanIsExact(c, day);
    FirstOccurrencesAscend(c.zone, RandomOccurrences(c, day)[i], RandomOccurrences(c, day)[j]);
  }

  lemma ChosenAreDistinct(offsets: seq<nat>, positions: seq<nat>)
    requires AscendingNat(offsets)
    requires forall i :: 0 <= i < |positions| ==> positions[i] < |offsets|
    requires forall i, j :: 0 <= i < j < |positions| ==> positions[i] != positions[j]
    ensures var s := Chosen(offsets, positions); forall i, j :: 0 <= i < j < |s| ==> s[i] != s[j]
    ensures forall y :: y in Chosen(offsets, positions) ==> y in offsets
  {
    var s := Chosen(offsets, positions);
    forall i, j | 0 <= i < j < |s|
      ensures s[i] != s[j]
    {
      if positions[i] < positions[j] {
        assert offsets[positions[i]] < offsets[positions[j]];
      } else {
        assert offsets[positions[j]] < offsets[positions[i]];
      }
    }
  }

  /** The facts about a planned instant that order it against the others. */
  ghost predicate Anchored(c: Config, day: int, u: int)
    requires Valid(c)
  {
    && FoldOf(c.zone, u) == 0
    && match c.rule
       case Fixed(time) => u == Localize(c.zone, day * DAY + time).0
       case Random(start, end, _) => Real(c.zone, day, start, end, u)
  }

  lemma CandidatesAreAnchored(c: Config, day: int)
    requires Valid(c)
    ensures Ascending(Candidates(c, day))
    ensures forall i :: 0 <= i < |Candidates(c, day)| ==> Anchored(c, day, Candidates(c, day)[i])
  {
    match c.rule
    case Fixed(time) => LocalizeMeaning(c.zone, day * DAY + time);
    case Random(start, end, count) =>
      if count > 1 {
        RandomPlanIsExact(c, day);
      } else {
        LocalizeMeaning(c.zone, day * DAY + start + c.draws.second(day) % (end - start + 1));
      }
  }

  /** Instants of an earlier day come first. */
  lemma DaysAreOrdered(c: Config, d: int, u: int, e: int, v: int)
    requires Valid(c) && d < e && Anchored(c, d, u) && Anchored(c, e, v)
    ensures u < v
  {
    assert (e - d) * DAY >= DAY;
    match c.rule
    case Fixed(time) =>
      assert e * DAY - d * DAY >= DAY;
    case Random(start, end, _) =>
      DayBounds(Local(c.zone, u), d);
      DayBounds(Local(c.zone, v), e);
      if v < u {
        FirstOccurrencesAscend(c.zone, v, u);
      }
  }

  /**
   * The fixed run of day `d` is carried over midnight: when it comes, the local date has already
   * moved on. Only a wall time that the clock skips can be carried.
   */
  predicate Carried(c: Config, d: int) {
    c.rule.Fixed? && DayOf(Local(c.zone, Localize(c.zone, d * DAY + c.rule.time).0 - 1)) > d
  }

  /** Only the days on which the skipped stretch of the clock begins and ends need to be looked at. */
  lemma OnlySkippedTimesAreCarried(c: Config, d: int)
    requires Valid(c) && Carried(c, d)
    ensures var z := c.zone;
            && z.transition + z.before <= d * DAY + c.rule.time < z.transition + z.after
            && (d == DayOf(z.transition + z.before) || d == DayOf(z.transition + z.after - 1))
  {
    var z, w := c.zone, d * DAY + c.rule.time;
    LocalizeMeaning(z, w);
    DayBounds(w, d);
    var u := Localize(z, w).0;
    DayBounds(Local(z, u - 1), DayOf(Local(z, u - 1)));
    assert (d + 1) * DAY <= DayOf(Local(z, u - 1)) * DAY;
    DayBounds(z.transition + z.before, d);
    DayBounds(z.transition + z.after - 1, d);
  }

  /** Before a planned instant the local date has not passed its day, unless it is carried. */
  lemma EarlierDaysArePast(c: Config, d: int, u: int, cutoff: int)
    requires Valid(c) && !Carried(c, d) && Anchored(c, d, u) && cutoff < u
    ensures DayOf(Local(c.zone, cutoff)) <= d
  {
    var day := DayOf(Local(c.zone, cutoff));
    FirstOccurrencesAscend(c.zone, cutoff, u);
    DayBounds(Local(c.zone, cutoff), day);
    if c.rule.Fixed? && c.zone.before < c.zone.after {
      DayBounds(Local(c.zone, u - 1), DayOf(Local(c.zone, u - 1)));
      assert Local(c.zone, cutoff) <= Local(c.zone, u - 1);
      assert (DayOf(Local(c.zone, u - 1)) + 1) * DAY <= (d + 1) * DAY;
      assert day * DAY < (d + 1) * DAY;
    } else {
      if c.rule.Fixed? {
        LocalizeMeaning(c.zone, d * DAY + c.rule.time);
        DayBounds(d * DAY + c.rule.time, d);
      }
      DayBounds(Local(c.zone, u), d);
      assert day * DAY < (d + 1) * DAY;
    }
  }

  /** A planned instant lies on its day or, if it is a fixed time that the clock skips, on the next one. */
  lemma LocalDayOfPlanned(c: Config, d: int, u: int)
    requires Valid(c) && Anchored(c, d, u)
    ensures d <= DayOf(Local(c.zone, u)) <= (if c.rule.Fixed? then d + 1 else d)
  {
    if c.rule.Fixed? {
      LocalizeMeaning(c.zone, d * DAY + c.rule.time);
      DayBounds(d * DAY + c.rule.time, d);
      var day := DayOf(Local(c.zone, u));
      DayBounds(Local(c.zone, u), day);
      assert day * DAY < (d + 2) * DAY && (day + 1) * DAY > d * DAY;
    }
  }
}
