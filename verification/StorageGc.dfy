/** The storage collector: it walks `year/month/day` directories, prunes whole years and months, and
    deletes the day directories that are past retention. */
module StorageGc {
  import opened Options
  import opened TimeRanges
  import RetentionPlan
  import Sorting

  // ----- The calendar -----

  predicate Leap(y: int) {
    y % 4 == 0 && (y % 100 != 0 || y % 400 == 0)
  }

  function DaysInMonth(y: int, m: int): int
    requires 1 <= m <= 12
  {
    if m == 2 then (if Leap(y) then 29 else 28)
    else if m == 4 || m == 6 || m == 9 || m == 11 then 30
    else 31
  }

  /** Days of year `y` before month `m`. */
  function DaysBefore(y: int, m: int): (d: int)
    requires 1 <= m <= 12
    ensures d >= 0
    decreases m
  {
    if m == 1 then 0 else DaysBefore(y, m - 1) + DaysInMonth(y, m - 1)
  }

  /** Days from 1970-01-01 to January 1st of `y`. */
  function YearStart(y: int): int {
    365 * (y - 1970) + (y - 1) / 4 - (y - 1) / 100 + (y - 1) / 400 - 477
  }

  /** The years the date library accepts. */
  predicate YearInRange(y: int) {
    -262143 <= y <= 262142
  }

  function Midnight(y: int, m: int, d: int): Option<int> {
    if YearInRange(y) && 1 <= m <= 12 && 1 <= d <= DaysInMonth(y, m)
    then Some((YearStart(y) + DaysBefore(y, m) + d - 1) * DAY)
    else None
  }

  function MonthStart(y: int, m: int): Option<int> {
    Midnight(y, m, 1)
  }

  function DayBounds(y: int, m: int, d: int): Option<TimeRange> {
    var s := Midnight(y, m, d);
    if s.None? then None else Some(TimeRange(s.value, s.value + DAY))
  }

  predicate IsDate(y: int, m: int, d: int) {
    Midnight(y, m, d).Some?
  }

  /** The date after a date. */
  function NextDate(y: int, m: int, d: int): (int, int, int)
    requires IsDate(y, m, d)
  {
    if d < DaysInMonth(y, m) then (y, m, d + 1)
    else if m < 12 then (y, m + 1, 1)
    else (y + 1, 1, 1)
  }

  lemma YearLength(y: int)
    ensures YearStart(y + 1) == YearStart(y) + (if Leap(y) then 366 else 365)
  {
    DivStep(y, 4);
    DivStep(y, 100);
    DivStep(y, 400);
  }

  lemma DivStep(y: int, n: int)
    requires n == 4 || n == 100 || n == 400
    ensures y / n == (y - 1) / n + (if y % n == 0 then 1 else 0)
  {
  }

  lemma December(y: int)
    ensures DaysBefore(y, 12) + 31 == if Leap(y) then 366 else 365
  {
    assert DaysBefore(y, 4) == DaysBefore(y, 3) + 31;
    assert DaysBefore(y, 3) == 31 + DaysInMonth(y, 2);
    assert DaysBefore(y, 8) == DaysBefore(y, 4) + 30 + 31 + 30 + 31;
    assert DaysBefore(y, 12) == DaysBefore(y, 8) + 31 + 30 + 31 + 30;
  }

  /** The months of a common year and of a leap year start where they should. */
  lemma MonthStarts(y: int)
    ensures var starts := [0, 31, 59, 90, 120, 151, 181, 212, 243, 273, 304, 334];
            forall m :: 1 <= m <= 12 ==> DaysBefore(y, m) == starts[m - 1] + (if Leap(y) && m > 2 then 1 else 0)
  {
    FirstMonths(y);
    assert DaysBefore(y, 7) == DaysBefore(y, 6) + 30;
    assert DaysBefore(y, 8) == DaysBefore(y, 7) + 31;
    assert DaysBefore(y, 9) == DaysBefore(y, 8) + 31;
    assert DaysBefore(y, 10) == DaysBefore(y, 9) + 30;
    assert DaysBefore(y, 11) == DaysBefore(y, 10) + 31;
    assert DaysBefore(y, 12) == DaysBefore(y, 11) + 30;
  }

  lemma FirstMonths(y: int)
    ensures DaysBefore(y, 1) == 0 && DaysBefore(y, 2) == 31
    ensures DaysBefore(y, 3) == 59 + (if Leap(y) then 1 else 0)
    ensures DaysBefore(y, 4) == DaysBefore(y, 3) + 31
    ensures DaysBefore(y, 5) == DaysBefore(y, 4) + 30
    ensures DaysBefore(y, 6) == DaysBefore(y, 5) + 31
  {
  }

  lemma WithinMonth(y: int, m: int, d: int)
    requires IsDate(y, m, d) && d < DaysInMonth(y, m)
    ensures IsDate(y, m, d + 1) && Midnight(y, m, d + 1).value == Midnight(y, m, d).value + DAY
  {
  }

  lemma NextMonth(y: int, m: int)
    requires YearInRange(y) && 1 <= m < 12
    ensures IsDate(y, m, DaysInMonth(y, m)) && IsDate(y, m + 1, 1)
    ensures Midnight(y, m + 1, 1).value == Midnight(y, m, DaysInMonth(y, m)).value + DAY
  {
    assert DaysBefore(y, m + 1) == DaysBefore(y, m) + DaysInMonth(y, m);
  }

  lemma NextYear(y: int)
    requires YearInRange(y) && YearInRange(y + 1)
    ensures IsDate(y, 12, 31) && IsDate(y + 1, 1, 1)
    ensures Midnight(y + 1, 1, 1).value == Midnight(y, 12, 31).value + DAY
  {
    YearLength(y);
    December(y);
  }

  /** Days are counted from 1970-01-01, and consecutive dates are consecutive days: the day
      directories tile the time line without gap or overlap. */
  lemma DaysAreContiguous(y: int, m: int, d: int)
    requires IsDate(y, m, d) && YearInRange(y + 1)
    ensures
      var (y1, m1, d1) := NextDate(y, m, d);
      IsDate(y1, m1, d1) && Midnight(y1, m1, d1).value == Midnight(y, m, d).value + DAY
    ensures Midnight(1970, 1, 1) == Some(0)
  {
    if d < DaysInMonth(y, m) {
      WithinMonth(y, m, d);
    } else if m < 12 {
      NextMonth(y, m);
    } else {
      NextYear(y);
    }
    assert YearStart(1970) == 0;
  }

  // ----- What is deleted -----

  /** Directory names that are not numbers parse to `None`. */
  datatype DayDir = DayDir(day: Option<int>, files: seq<string>)
  datatype MonthDir = MonthDir(month: Option<int>, days: seq<DayDir>)
  datatype YearDir = YearDir(year: Option<int>, months: seq<MonthDir>)

  ghost predicate RedDay(range: TimeRange, extended: seq<TimeRange>) {
    exists i :: 0 <= i < |extended| && extended[i].Intersects(range)
  }

  /** The plain filter, without any pruning: the day is a date, it ends by the boundary and it meets
      no extended retention range. */
  ghost predicate Expired(y: int, m: int, day: DayDir, boundary: int, extended: seq<TimeRange>) {
    day.day.Some? &&
    var bounds := DayBounds(y, m, day.day.value);
    bounds.Some? && bounds.value.end <= boundary && !RedDay(bounds.value, extended)
  }

  ghost function OfDay(y: int, m: int, day: DayDir, boundary: int, extended: seq<TimeRange>): seq<DayDir> {
    if Expired(y, m, day, boundary, extended) && day.files != [] then [day] else []
  }

  ghost function ExpiredDays(y: int, m: int, days: seq<DayDir>, boundary: int, extended: seq<TimeRange>): seq<DayDir> {
    Joined(DayParts(y, m, days, boundary, extended))
  }

  ghost function DayParts(y: int, m: int, days: seq<DayDir>, boundary: int,
                          extended: seq<TimeRange>): seq<seq<DayDir>> {
    seq(|days|, i requires 0 <= i < |days| => OfDay(y, m, days[i], boundary, extended))
  }

  ghost function OfMonth(y: int, month: MonthDir, boundary: int, extended: seq<TimeRange>): seq<DayDir> {
    if month.month.Some? then ExpiredDays(y, month.month.value, month.days, boundary, extended) else []
  }

  ghost function ExpiredMonths(y: int, months: seq<MonthDir>, boundary: int, extended: seq<TimeRange>): seq<DayDir> {
    Joined(MonthParts(y, months, boundary, extended))
  }

  ghost function MonthParts(y: int, months: seq<MonthDir>, boundary: int, extended: seq<TimeRange>): seq<seq<DayDir>> {
    seq(|months|, i requires 0 <= i < |months| => OfMonth(y, months[i], boundary, extended))
  }

  ghost function OfYear(year: YearDir, boundary: int, extended: seq<TimeRange>): seq<DayDir> {
    if year.year.Some? then ExpiredMonths(year.year.value, year.months, boundary, extended) else []
  }

  ghost function ExpiredYears(years: seq<YearDir>, boundary: int, extended: seq<TimeRange>): seq<DayDir> {
    Joined(YearParts(years, boundary, extended))
  }

  ghost function YearParts(years: seq<YearDir>, boundary: int, extended: seq<TimeRange>): seq<seq<DayDir>> {
    seq(|years|, i requires 0 <= i < |years| => OfYear(years[i], boundary, extended))
  }

  /** The lists one after the other. */
  function Joined(parts: seq<seq<DayDir>>): seq<DayDir> {
    if parts == [] then [] else Joined(parts[..|parts| - 1]) + parts[|parts| - 1]
  }

  lemma {:induction false} JoinedEmpty(parts: seq<seq<DayDir>>)
    requires forall i :: 0 <= i < |parts| ==> parts[i] == []
    ensures Joined(parts) == []
  {
    if parts != [] { JoinedEmpty(parts[..|parts| - 1]); }
  }

  lemma {:induction false} JoinedPrefix(parts: seq<seq<DayDir>>, i: nat)
    requires i < |parts|
    ensures Joined(parts[..i + 1]) == Joined(parts[..i]) + parts[i] && Joined(parts[..i + 1]) <= Joined(parts)
    decreases |parts|
  {
    assert parts[..i + 1][..i] == parts[..i];
    if i + 1 == |parts| {
      assert parts[..i + 1] == parts;
    } else {
      var front := parts[..|parts| - 1];
      assert front[..i + 1] == parts[..i + 1] && front[..i] == parts[..i];
      JoinedPrefix(front, i);
    }
  }

  function FileCount(days: seq<DayDir>): nat {
    if days == [] then 0 else FileCount(days[..|days| - 1]) + |days[|days| - 1].files|
  }

  function SetOf(s: seq<string>): set<string> {
    set f | f in s
  }

  function FilesIn(days: seq<DayDir>): set<string> {
    set d, f | d in days && f in d.files :: f
  }

  // ----- Pruning is sound -----

  lemma MonthPruneSound(y: int, m: int, days: seq<DayDir>, boundary: int, extended: seq<TimeRange>)
    requires MonthStart(y, m).Some? && MonthStart(y, m).value > boundary
    ensures ExpiredDays(y, m, days, boundary, extended) == []
  {
    JoinedEmpty(DayParts(y, m, days, boundary, extended));
  }

  /** A month of a year that starts after the boundary holds nothing to delete, dates or not. */
  lemma LateMonth(y: int, month: MonthDir, boundary: int, extended: seq<TimeRange>)
    requires MonthStart(y, 1).Some? && MonthStart(y, 1).value > boundary
    ensures OfMonth(y, month, boundary, extended) == []
  {
    if month.month.Some? {
      JoinedEmpty(DayParts(y, month.month.value, month.days, boundary, extended));
    }
  }

  lemma YearPruneSound(y: int, months: seq<MonthDir>, boundary: int, extended: seq<TimeRange>)
    requires MonthStart(y, 1).Some? && MonthStart(y, 1).value > boundary
    ensures ExpiredMonths(y, months, boundary, extended) == []
  {
    var parts := MonthParts(y, months, boundary, extended);
    forall i | 0 <= i < |parts| ensures parts[i] == [] {
      LateMonth(y, months[i], boundary, extended);
    }
    JoinedEmpty(parts);
  }

  // ----- The collector against the planner -----

  lemma RedDayCons(day: TimeRange, r: TimeRange, rs: seq<TimeRange>)
    ensures RedDay(day, [r] + rs) <==> r.Intersects(day) || RedDay(day, rs)
  {
    var both := [r] + rs;
    assert both[0] == r && forall i :: 0 <= i < |rs| ==> both[i + 1] == rs[i];
  }

  /** A day that meets a flattened range meets a stored one. */
  lemma {:induction false} FlattenMeetsNothingNew(current: TimeRange, rest: seq<TimeRange>, day: TimeRange)
    requires Ordered(current, rest) && day.start < day.end
    requires RedDay(day, FlattenFrom(current, rest))
    ensures current.Intersects(day) || RedDay(day, rest)
    decreases |rest|
  {
    if rest != [] {
      OrderedTail(current, rest);
      assert rest == [rest[0]] + rest[1..];
      RedDayCons(day, rest[0], rest[1..]);
      if current.Intersects(rest[0]) {
        FlattenMeetsNothingNew(TimeRange(current.start, rest[0].end), rest[1..], day);
      } else {
        RedDayCons(day, current, FlattenFrom(rest[0], rest[1..]));
        if !current.Intersects(day) { FlattenMeetsNothingNew(rest[0], rest[1..], day); }
      }
    }
  }

  lemma FlattenedRedDay(extended: seq<TimeRange>, day: TimeRange)
    requires Valid(extended) && day.start < day.end && RedDay(day, Flattened(extended))
    ensures RedDay(day, extended)
  {
    var sorted := Sorting.SortBy(extended, StartOf);
    SortedOrdered(extended);
    if sorted != [] {
      FlattenMeetsNothingNew(sorted[0], sorted[1..], day);
      RedDayCons(day, sorted[0], sorted[1..]);
      assert sorted == [sorted[0]] + sorted[1..];
      RedDayAmong(sorted, extended, day);
    }
  }

  lemma RedDayAmong(rs: seq<TimeRange>, others: seq<TimeRange>, day: TimeRange)
    requires RedDay(day, rs) && forall r :: r in rs ==> r in others
    ensures RedDay(day, others)
  {
    var i :| 0 <= i < |rs| && rs[i].Intersects(day);
    assert rs[i] in others;
  }

  /** The range has ended by the start of the day, inside the extended retention period, its shield
      still holds `x`, and it is not cut off at the boundary. */
  predicate ShieldReaches(r: TimeRange, day: TimeRange, original: TimeRange, lastRetained: int, x: int) {
    lastRetained <= r.end <= day.start && x < r.end + DAY && r.end + DAY != original.end
  }

  /** The collector deletes an instant which the planner keeps if and only if its day meets no stored
      range and the shield of a flattened range that ended before reaches it. */
  lemma PlannerKeepsMoreIff(extended: seq<TimeRange>, original: TimeRange, lastRetained: int, day: TimeRange, x: int)
    requires Valid(extended) && day.end == day.start + DAY && day.Has(x) && day.end <= original.end
    ensures !RedDay(day, extended) && RetentionPlan.Blocked(RetentionPlan.Clipped(extended, original, lastRetained),
                                                            original, x) <==>
            !RedDay(day, extended) &&
            exists r :: r in Flattened(extended) && ShieldReaches(r, day, original, lastRetained, x)
  {
    if !RedDay(day, extended) {
      RetentionPlan.BlockedIff(extended, original, lastRetained, x);
      FlattenLosslessIff(extended);
      var flat := Flattened(extended);
      forall r | r in flat
        ensures RetentionPlan.Protects(r, original, lastRetained, x) <==>
                ShieldReaches(r, day, original, lastRetained, x)
      {
        var i :| 0 <= i < |flat| && flat[i] == r;
        if r.Intersects(day) { FlattenedRedDay(extended, day); }
      }
    }
  }

  /** Such an input: days 8 and 9 and the end at the start of day 10 are stored; the planner keeps
      day 10 and the collector deletes it. */
  lemma DayAtRangeEndIsDeleted()
    ensures var extended, day := [TimeRange(8 * DAY, 10 * DAY)], TimeRange(10 * DAY, 11 * DAY);
            var original := TimeRange(0, 20 * DAY);
            && !RedDay(day, extended)
            && forall x :: day.Has(x) ==>
                 RetentionPlan.Blocked(RetentionPlan.Clipped(extended, original, 0), original, x)
  {
    var r, day, original := TimeRange(8 * DAY, 10 * DAY), TimeRange(10 * DAY, 11 * DAY), TimeRange(0, 20 * DAY);
    assert Sorting.SortBy([r], StartOf) == [r];
    assert Flattened([r]) == [r] && r in [r];
    forall x | day.Has(x) ensures RetentionPlan.Blocked(RetentionPlan.Clipped([r], original, 0), original, x) {
      assert ShieldReaches(r, day, original, 0, x);
      PlannerKeepsMoreIff([r], original, 0, day, x);
    }
  }

  // ----- The walk -----

  class Store {
    var objects: set<string>
    const reliable: bool       // no listing or deletion fails

    /** Whether a call fails; arbitrary, unless the store is reliable. */
    method Fails() returns (fails: bool)
      ensures reliable ==> !fails
    {
      fails := *;
      fails := fails && !reliable;
    }
  }

  /** What has been counted and deleted so far corresponds to `days`. */
  ghost predicate Collected(before: set<string>, after: set<string>, dryRun: bool, days: seq<DayDir>, dirs: nat,
                            files: nat) {
    dirs == |days| && files == FileCount(days) && after == if dryRun then before else before - FilesIn(days)
  }

  /** A walk that may have stopped early: the counts belong to the first `dirs` of the days, and only
      objects of these days were deleted. */
  ghost predicate Partly(before: set<string>, after: set<string>, dryRun: bool, days: seq<DayDir>, dirs: nat,
                         files: nat) {
    && dirs <= |days| && files == FileCount(days[..dirs])
    && after <= before && before - after <= FilesIn(days[..dirs]) && (dryRun ==> after == before)
  }

  lemma CollectedIsPartly(before: set<string>, after: set<string>, dryRun: bool, days: seq<DayDir>, dirs: nat,
                          files: nat)
    requires Collected(before, after, dryRun, days, dirs, files)
    ensures Partly(before, after, dryRun, days, dirs, files)
  {
    assert days[..dirs] == days;
  }

  /** A longer list of days with the same beginning. */
  lemma PartlyOfMore(before: set<string>, after: set<string>, dryRun: bool, days: seq<DayDir>, all: seq<DayDir>,
                     dirs: nat, files: nat)
    requires Partly(before, after, dryRun, days, dirs, files) && days <= all
    ensures Partly(before, after, dryRun, all, dirs, files)
  {
    assert all[..dirs] == days[..dirs];
  }

  lemma CollectedThenPartly(before: set<string>, mid: set<string>, dryRun: bool, a: seq<DayDir>, dirs: nat, files: nat,
                            after: set<string>, b: seq<DayDir>, dirs2: nat, files2: nat)
    requires Collected(before, mid, dryRun, a, dirs, files) && Partly(mid, after, dryRun, b, dirs2, files2)
    ensures Partly(before, after, dryRun, a + b, dirs + dirs2, files + files2)
  {
    CountConcat(a, b[..dirs2]);
    assert (a + b)[..dirs + dirs2] == a + b[..dirs2];
  }

  lemma {:induction false} FilesOfPrefix(days: seq<DayDir>, n: nat)
    requires n <= |days|
    ensures FilesIn(days[..n]) <= FilesIn(days) && FileCount(days[..n]) <= FileCount(days)
  {
    assert days == days[..n] + days[n..];
    CountConcat(days[..n], days[n..]);
  }

  /** One more step of a walk: it goes on, or it stops early. */
  lemma WalkStep(before: set<string>, mid: set<string>, dryRun: bool, a: seq<DayDir>, dirs: nat, files: nat,
                 after: set<string>, b: seq<DayDir>, dirs2: nat, files2: nat, more: bool,
                 next: seq<DayDir>, all: seq<DayDir>)
    requires Collected(before, mid, dryRun, a, dirs, files) && Partly(mid, after, dryRun, b, dirs2, files2)
    requires more ==> Collected(mid, after, dryRun, b, dirs2, files2)
    requires next == a + b && next <= all
    ensures Partly(before, after, dryRun, all, dirs + dirs2, files + files2)
    ensures more ==> Collected(before, after, dryRun, next, dirs + dirs2, files + files2)
  {
    CollectedThenPartly(before, mid, dryRun, a, dirs, files, after, b, dirs2, files2);
    PartlyOfMore(before, after, dryRun, a + b, all, dirs + dirs2, files + files2);
    if more { CollectedAll(before, mid, dryRun, a, dirs, files, after, b, dirs2, files2); }
  }

  /** Nothing counted, nothing deleted. */
  lemma NothingYet(objects: set<string>, dryRun: bool, days: seq<DayDir>)
    ensures Partly(objects, objects, dryRun, days, 0, 0)
    ensures days == [] ==> Collected(objects, objects, dryRun, days, 0, 0)
  {
    assert days[..0] == [];
  }

  lemma CollectedAll(before: set<string>, after: set<string>, dryRun: bool, a: seq<DayDir>, dirs: nat, files: nat,
                     after2: set<string>, b: seq<DayDir>, dirs2: nat, files2: nat)
    requires Collected(before, after, dryRun, a, dirs, files) && Collected(after, after2, dryRun, b, dirs2, files2)
    ensures Collected(before, after2, dryRun, a + b, dirs + dirs2, files + files2)
  {
    CountConcat(a, b);
  }

  lemma {:induction false} CountConcat(a: seq<DayDir>, b: seq<DayDir>)
    ensures FileCount(a + b) == FileCount(a) + FileCount(b)
    ensures FilesIn(a + b) == FilesIn(a) + FilesIn(b)
    decreases |b|
  {
    if b == [] {
      assert a + b == a;
    } else {
      CountConcat(a, b[..|b| - 1]);
      assert (a + b)[..|a + b| - 1] == a + b[..|b| - 1];
    }
    assert FilesIn(a + b) == FilesIn(a) + FilesIn(b);
  }

  method MeetsRedDay(range: TimeRange, extended: seq<TimeRange>) returns (red: bool)
    ensures red <==> RedDay(range, extended)
  {
    for i := 0 to |extended|
      invariant forall j :: 0 <= j < i ==> !extended[j].Intersects(range)
    {
      if extended[i].Intersects(range) { return true; }
    }
    red := false;
  }

  lemma OneDay(day: DayDir)
    ensures FileCount([day]) == |day.files| && FilesIn([day]) == SetOf(day.files)
  {
    assert [day][..0] == [];
  }

  /** Deletes the files of one day; a failed call has deleted some of them. */
  method DeleteDay(store: Store, day: DayDir) returns (ok: bool)
    modifies store
    ensures Partly(old(store.objects), store.objects, false, [day], 1, |day.files|)
    ensures ok ==> Collected(old(store.objects), store.objects, false, [day], 1, |day.files|)
    ensures store.reliable ==> ok
  {
    OneDay(day);
    assert [day][..1] == [day] && [day][..0] == [];
    var fails := store.Fails();
    if fails {
      var removed: set<string> :| removed <= SetOf(day.files);
      store.objects := store.objects - removed;
      return false;
    }
    store.objects := store.objects - SetOf(day.files);
    ok := true;
  }

  /** One day directory. */
  method GcDay(store: Store, y: int, m: int, day: DayDir, boundary: int, extended: seq<TimeRange>, dryRun: bool)
    returns (ok: bool, dirs: nat, files: nat)
    modifies store
    ensures Partly(old(store.objects), store.objects, dryRun, OfDay(y, m, day, boundary, extended), dirs, files)
    ensures ok ==>
        Collected(old(store.objects), store.objects, dryRun, OfDay(y, m, day, boundary, extended), dirs, files)
    ensures store.reliable ==> ok
  {
    NothingYet(store.objects, dryRun, OfDay(y, m, day, boundary, extended));
    if day.day.None? { return true, 0, 0; }
    var bounds := DayBounds(y, m, day.day.value);
    if bounds.None? || bounds.value.end > boundary { return true, 0, 0; }
    var red := MeetsRedDay(bounds.value, extended);
    if red { return true, 0, 0; }
    var listFails := store.Fails();
    if listFails { return false, 0, 0; }
    if day.files == [] { return true, 0, 0; }
    ok, dirs, files := true, 1, |day.files|;
    if dryRun {
      OneDay(day);
      CollectedIsPartly(store.objects, store.objects, true, [day], 1, |day.files|);
    } else {
      ok := DeleteDay(store, day);
    }
  }

  /** One more day of a walk that began with the objects `start` and has collected `sofar`. */
  method GcNextDay(store: Store, y: int, m: int, day: DayDir, boundary: int, extended: seq<TimeRange>, dryRun: bool,
                   dirs: nat, files: nat, ghost start: set<string>, ghost sofar: seq<DayDir>, ghost next: seq<DayDir>,
                   ghost all: seq<DayDir>)
    returns (ok: bool, dirs': nat, files': nat)
    requires Collected(start, store.objects, dryRun, sofar, dirs, files)
    requires next == sofar + OfDay(y, m, day, boundary, extended) && next <= all
    modifies store
    ensures Partly(start, store.objects, dryRun, all, dirs', files')
    ensures ok ==> Collected(start, store.objects, dryRun, next, dirs', files')
    ensures store.reliable ==> ok
  {
    ghost var before := store.objects;
    var d, f;
    ok, d, f := GcDay(store, y, m, day, boundary, extended, dryRun);
    ghost var here := OfDay(y, m, day, boundary, extended);
    WalkStep(start, before, dryRun, sofar, dirs, files, store.objects, here, d, f, ok, next, all);
    dirs', files' := dirs + d, files + f;
  }

  method GcDays(store: Store, y: int, m: int, days: seq<DayDir>, boundary: int, extended: seq<TimeRange>, dryRun: bool,
                ghost parts: seq<seq<DayDir>>)
    returns (ok: bool, dirs: nat, files: nat)
    requires |parts| == |days|
    requires forall i {:trigger OfDay(y, m, days[i], boundary, extended)} :: 0 <= i < |days| ==>
        parts[i] == OfDay(y, m, days[i], boundary, extended)
    modifies store
    ensures Partly(old(store.objects), store.objects, dryRun, Joined(parts), dirs, files)
    ensures ok ==> Collected(old(store.objects), store.objects, dryRun, Joined(parts), dirs, files)
    ensures store.reliable ==> ok
  {
    ghost var sofar: seq<DayDir> := [];
    NothingYet(store.objects, dryRun, sofar);
    dirs, files := 0, 0;
    for i := 0 to |days|
      invariant sofar == Joined(parts[..i])
      invariant Collected(old(store.objects), store.objects, dryRun, sofar, dirs, files)
    {
      JoinedPrefix(parts, i);
      ghost var next := Joined(parts[..i + 1]);
      var more;
      more, dirs, files := GcNextDay(store, y, m, days[i], boundary, extended, dryRun, dirs, files,
                                     old(store.objects), sofar, next, Joined(parts));
      sofar := next;
      if !more { return false, dirs, files; }
    }
    assert parts[..|parts|] == parts;
    CollectedIsPartly(old(store.objects), store.objects, dryRun, sofar, dirs, files);
    ok := true;
  }

  /** One month directory: pruned, or its days. */
  method GcMonth(store: Store, y: int, month: MonthDir, boundary: int, extended: seq<TimeRange>, dryRun: bool)
    returns (ok: bool, dirs: nat, files: nat)
    modifies store
    ensures Partly(old(store.objects), store.objects, dryRun, OfMonth(y, month, boundary, extended), dirs, files)
    ensures ok ==>
              Collected(old(store.objects), store.objects, dryRun, OfMonth(y, month, boundary, extended), dirs, files)
    ensures store.reliable ==> ok
  {
    NothingYet(store.objects, dryRun, OfMonth(y, month, boundary, extended));
    if month.month.None? { return true, 0, 0; }
    var m := month.month.value;
    var start := MonthStart(y, m);
    if start.Some? && start.value > boundary {
      MonthPruneSound(y, m, month.days, boundary, extended);
      return true, 0, 0;
    }
    var listFails := store.Fails();
    if listFails { return false, 0, 0; }
    ok, dirs, files := GcDays(store, y, m, month.days, boundary, extended, dryRun,
                              DayParts(y, m, month.days, boundary, extended));
  }

  /** One more month of a walk that began with the objects `start` and has collected `sofar`. */
  method GcNextMonth(store: Store, y: int, month: MonthDir, boundary: int, extended: seq<TimeRange>, dryRun: bool,
                    dirs: nat, files: nat, ghost start: set<string>, ghost sofar: seq<DayDir>,
                    ghost next: seq<DayDir>, ghost all: seq<DayDir>)
    returns (ok: bool, dirs': nat, files': nat)
    requires Collected(start, store.objects, dryRun, sofar, dirs, files)
    requires next == sofar + OfMonth(y, month, boundary, extended) && next <= all
    modifies store
    ensures Partly(start, store.objects, dryRun, all, dirs', files')
    ensures ok ==> Collected(start, store.objects, dryRun, next, dirs', files')
    ensures store.reliable ==> ok
  {
    ghost var before := store.objects;
    var d, f;
    ok, d, f := GcMonth(store, y, month, boundary, extended, dryRun);
    ghost var here := OfMonth(y, month, boundary, extended);
    WalkStep(start, before, dryRun, sofar, dirs, files, store.objects, here, d, f, ok, next, all);
    dirs', files' := dirs + d, files + f;
  }

  method GcMonths(store: Store, y: int, months: seq<MonthDir>, boundary: int, extended: seq<TimeRange>, dryRun: bool,
                ghost parts: seq<seq<DayDir>>)
    returns (ok: bool, dirs: nat, files: nat)
    requires |parts| == |months|
    requires forall i {:trigger OfMonth(y, months[i], boundary, extended)} :: 0 <= i < |months| ==>
        parts[i] == OfMonth(y, months[i], boundary, extended)
    modifies store
    ensures Partly(old(store.objects), store.objects, dryRun, Joined(parts), dirs, files)
    ensures ok ==> Collected(old(store.objects), store.objects, dryRun, Joined(parts), dirs, files)
    ensures store.reliable ==> ok
  {
    ghost var sofar: seq<DayDir> := [];
    NothingYet(store.objects, dryRun, sofar);
    dirs, files := 0, 0;
    for i := 0 to |months|
      invariant sofar == Joined(parts[..i])
      invariant Collected(old(store.objects), store.objects, dryRun, sofar, dirs, files)
    {
      JoinedPrefix(parts, i);
      ghost var next := Joined(parts[..i + 1]);
      var more;
      more, dirs, files := GcNextMonth(store, y, months[i], boundary, extended, dryRun, dirs, files,
                                      old(store.objects), sofar, next, Joined(parts));
      sofar := next;
      if !more { return false, dirs, files; }
    }
    assert parts[..|parts|] == parts;
    CollectedIsPartly(old(store.objects), store.objects, dryRun, sofar, dirs, files);
    ok := true;
  }

  /** One year directory: pruned, or its months. */
  method GcYear(store: Store, year: YearDir, boundary: int, extended: seq<TimeRange>, dryRun: bool)
    returns (ok: bool, dirs: nat, files: nat)
    modifies store
    ensures Partly(old(store.objects), store.objects, dryRun, OfYear(year, boundary, extended), dirs, files)
    ensures ok ==> Collected(old(store.objects), store.objects, dryRun, OfYear(year, boundary, extended), dirs, files)
    ensures store.reliable ==> ok
  {
    NothingYet(store.objects, dryRun, OfYear(year, boundary, extended));
    if year.year.None? { return true, 0, 0; }
    var y := year.year.value;
    var start := MonthStart(y, 1);
    if start.Some? && start.value > boundary {
      YearPruneSound(y, year.months, boundary, extended);
      return true, 0, 0;
    }
    var listFails := store.Fails();
    if listFails { return false, 0, 0; }
    ok, dirs, files := GcMonths(store, y, year.months, boundary, extended, dryRun,
                                MonthParts(y, year.months, boundary, extended));
  }

  /** One more year of a walk that began with the objects `start` and has collected `sofar`. */
  method GcNextYear(store: Store, year: YearDir, boundary: int, extended: seq<TimeRange>, dryRun: bool,
                    dirs: nat, files: nat, ghost start: set<string>, ghost sofar: seq<DayDir>,
                    ghost next: seq<DayDir>, ghost all: seq<DayDir>)
    returns (ok: bool, dirs': nat, files': nat)
    requires Collected(start, store.objects, dryRun, sofar, dirs, files)
    requires next == sofar + OfYear(year, boundary, extended) && next <= all
    modifies store
    ensures Partly(start, store.objects, dryRun, all, dirs', files')
    ensures ok ==> Collected(start, store.objects, dryRun, next, dirs', files')
    ensures store.reliable ==> ok
  {
    ghost var before := store.objects;
    var d, f;
    ok, d, f := GcYear(store, year, boundary, extended, dryRun);
    ghost var here := OfYear(year, boundary, extended);
    WalkStep(start, before, dryRun, sofar, dirs, files, store.objects, here, d, f, ok, next, all);
    dirs', files' := dirs + d, files + f;
  }

  method GcYears(store: Store, years: seq<YearDir>, boundary: int, extended: seq<TimeRange>, dryRun: bool,
                ghost parts: seq<seq<DayDir>>)
    returns (ok: bool, dirs: nat, files: nat)
    requires |parts| == |years|
    requires forall i {:trigger OfYear(years[i], boundary, extended)} :: 0 <= i < |years| ==>
        parts[i] == OfYear(years[i], boundary, extended)
    modifies store
    ensures Partly(old(store.objects), store.objects, dryRun, Joined(parts), dirs, files)
    ensures ok ==> Collected(old(store.objects), store.objects, dryRun, Joined(parts), dirs, files)
    ensures store.reliable ==> ok
  {
    ghost var sofar: seq<DayDir> := [];
    NothingYet(store.objects, dryRun, sofar);
    dirs, files := 0, 0;
    for i := 0 to |years|
      invariant sofar == Joined(parts[..i])
      invariant Collected(old(store.objects), store.objects, dryRun, sofar, dirs, files)
    {
      JoinedPrefix(parts, i);
      ghost var next := Joined(parts[..i + 1]);
      var more;
      more, dirs, files := GcNextYear(store, years[i], boundary, extended, dryRun, dirs, files,
                                      old(store.objects), sofar, next, Joined(parts));
      sofar := next;
      if !more { return false, dirs, files; }
    }
    assert parts[..|parts|] == parts;
    CollectedIsPartly(old(store.objects), store.objects, dryRun, sofar, dirs, files);
    ok := true;
  }

  /** The pruned walk counts and deletes exactly what the plain day filter selects; a dry run counts
      the same and deletes nothing.  A walk that fails has counted a prefix of the selected days and
      deleted nothing outside it. */
  method GcPrefix(store: Store, years: seq<YearDir>, boundary: int, extended: seq<TimeRange>, dryRun: bool)
    returns (ok: bool, dirs: nat, files: nat)
    modifies store
    ensures Partly(old(store.objects), store.objects, dryRun, ExpiredYears(years, boundary, extended), dirs, files)
    ensures ok ==>
        Collected(old(store.objects), store.objects, dryRun, ExpiredYears(years, boundary, extended), dirs, files)
    ensures store.objects <= old(store.objects)
    ensures old(store.objects) - store.objects <= FilesIn(ExpiredYears(years, boundary, extended))
    ensures store.reliable ==> ok
  {
    ok, dirs, files := GcYears(store, years, boundary, extended, dryRun, YearParts(years, boundary, extended));
    OnlySelectedDeleted(old(store.objects), store.objects, dryRun, ExpiredYears(years, boundary, extended), dirs,
                        files);
  }

  /** Whatever call fails, the collector deletes nothing but objects of the selected days. */
  lemma OnlySelectedDeleted(before: set<string>, after: set<string>, dryRun: bool, days: seq<DayDir>, dirs: nat,
                            files: nat)
    requires Partly(before, after, dryRun, days, dirs, files)
    ensures after <= before && before - after <= FilesIn(days) && dirs <= |days| && files <= FileCount(days)
  {
    FilesOfPrefix(days, dirs);
  }
}
