/** The retention planner: which instants of a stream are handed to deletion jobs. */
module RetentionPlan {
  import opened Options
  import opened Sorting
  import opened TimeRanges

  // ----- Clipping: the two filter stages before the split loop -----

  function ClipOne(r: TimeRange, original: TimeRange, lastRetained: int): Option<TimeRange> {
    if r.start > original.end then None
    else
      var r1 := if r.end > original.end then TimeRange(r.start, original.end) else r;
      if r1.end < lastRetained then None
      else if r1.start < lastRetained then Some(TimeRange(lastRetained, r1.end))
      else Some(r1)
  }

  function ClipAll(rs: seq<TimeRange>, original: TimeRange, lastRetained: int): seq<TimeRange> {
    if rs == [] then []
    else
      (match ClipOne(rs[0], original, lastRetained) case Some(c) => [c] case None => []) +
      ClipAll(rs[1..], original, lastRetained)
  }

  function Clipped(extended: seq<TimeRange>, original: TimeRange, lastRetained: int): seq<TimeRange> {
    SortBy(ClipAll(Flattened(extended), original, lastRetained), StartOf)
  }

  lemma {:induction false} ClipAllMembers(rs: seq<TimeRange>, original: TimeRange, lastRetained: int)
    ensures forall c :: c in ClipAll(rs, original, lastRetained) <==>
              exists r :: r in rs && ClipOne(r, original, lastRetained) == Some(c)
  {
    if rs != [] {
      ClipAllMembers(rs[1..], original, lastRetained);
      assert rs == [rs[0]] + rs[1..];
      forall c ensures c in ClipAll(rs, original, lastRetained) <==>
                       exists r :: r in rs && ClipOne(r, original, lastRetained) == Some(c) {
        if ClipOne(rs[0], original, lastRetained) == Some(c) {
          assert rs[0] in rs;
        }
      }
    }
  }

  lemma ClippedValid(extended: seq<TimeRange>, original: TimeRange, lastRetained: int)
    requires Valid(extended)
    ensures var cs := Clipped(extended, original, lastRetained);
            Valid(cs) && SortedBy(cs, StartOf)
    ensures forall c :: c in Clipped(extended, original, lastRetained) <==>
              exists r :: r in Flattened(extended) && ClipOne(r, original, lastRetained) == Some(c)
  {
    var flat := Flattened(extended);
    var all := ClipAll(flat, original, lastRetained);
    var cs := Clipped(extended, original, lastRetained);
    FlattenLosslessIff(extended);
    ClipAllMembers(flat, original, lastRetained);
    SortBySound(all, StartOf);
    forall i | 0 <= i < |cs| ensures cs[i].start <= cs[i].end {
      assert cs[i] in cs && cs[i] in all;
      var r :| r in flat && ClipOne(r, original, lastRetained) == Some(cs[i]);
    }
  }

  // ----- The split loop -----

  /** The end of the stretch a protected range removes: its last day is included unless that day is
      the final one of the original range. */
  function ShieldEnd(c: TimeRange, original: TimeRange): int {
    if c.end + DAY != original.end then c.end + DAY else c.end
  }

  predicate Blocks(c: TimeRange, original: TimeRange, x: int) {
    c.start <= x < ShieldEnd(c, original)
  }

  ghost predicate Blocked(cs: seq<TimeRange>, original: TimeRange, x: int) {
    exists i :: 0 <= i < |cs| && Blocks(cs[i], original, x)
  }

  ghost predicate Covered(rs: seq<TimeRange>, x: int) {
    exists i :: 0 <= i < |rs| && rs[i].Has(x)
  }

  /** Non-empty, in order and pairwise disjoint. */
  ghost predicate Separated(rs: seq<TimeRange>) {
    && (forall i :: 0 <= i < |rs| ==> rs[i].start < rs[i].end)
    && (forall i, j :: 0 <= i < j < |rs| ==> rs[i].end <= rs[j].start)
  }

  ghost predicate EndBy(rs: seq<TimeRange>, bound: int) {
    forall i :: 0 <= i < |rs| ==> rs[i].end <= bound
  }

  ghost predicate Keeps(out: seq<TimeRange>, last: Option<TimeRange>, x: int) {
    Covered(out, x) || (last.Some? && last.value.Has(x))
  }

  /** Each range of the plan starts where the original starts or where a shield ends. */
  ghost predicate StartsAtShieldEnd(r: TimeRange, cs: seq<TimeRange>, original: TimeRange) {
    r.start == original.start || exists i :: 0 <= i < |cs| && r.start == ShieldEnd(cs[i], original) < original.end
  }

  /** After `i` protected ranges: what is planned, and what of the original is left to split. */
  ghost predicate SplitShape(cs: seq<TimeRange>, i: int, original: TimeRange, out: seq<TimeRange>,
                             last: Option<TimeRange>)
    requires 0 <= i <= |cs|
  {
    && Separated(out)
    && (last.Some? ==> last.value.start < last.value.end == original.end && EndBy(out, last.value.start))
    && (forall j :: i <= j < |cs| ==> EndBy(out, cs[j].start))
  }

  ghost predicate SplitStarts(cs: seq<TimeRange>, original: TimeRange, out: seq<TimeRange>, last: Option<TimeRange>) {
    && (forall k :: 0 <= k < |out| ==> StartsAtShieldEnd(out[k], cs, original))
    && (last.Some? ==> StartsAtShieldEnd(last.value, cs, original))
  }

  ghost predicate SplitContent(cs: seq<TimeRange>, i: int, original: TimeRange, out: seq<TimeRange>,
                               last: Option<TimeRange>)
    requires 0 <= i <= |cs|
  {
    forall x :: Keeps(out, last, x) <==> original.Has(x) && !Blocked(cs[..i], original, x)
  }

  /** The body of the split loop. */
  function SplitStep(c: TimeRange, out: seq<TimeRange>, range: TimeRange): (seq<TimeRange>, Option<TimeRange>) {
    var shield := TimeRange(c.start, if c.end + DAY != range.end then c.end + DAY else c.end);
    match SplitByRange(range, shield)
    case Disjoint => (out, Some(range))
    case Split(left, right) => (if left.Some? then out + [left.value] else out, right)
  }

  lemma SplitStepShape(cs: seq<TimeRange>, i: nat, original: TimeRange, out: seq<TimeRange>, range: TimeRange)
    requires i < |cs| && Valid(cs) && SortedBy(cs, StartOf)
    requires SplitShape(cs, i, original, out, Some(range)) && SplitStarts(cs, original, out, Some(range))
    ensures var (out', last') := SplitStep(cs[i], out, range);
            SplitShape(cs, i + 1, original, out', last') && SplitStarts(cs, original, out', last')
  {
    var (out', last') := SplitStep(cs[i], out, range);
    assert EndBy(out, cs[i].start);
    forall j | i + 1 <= j < |cs| ensures EndBy(out', cs[j].start) {
      assert StartOf(cs[i]) <= StartOf(cs[j]);
    }
    if last'.Some? && last'.value != range {
      assert last'.value.start == ShieldEnd(cs[i], original);
    }
  }

  lemma SplitStepContent(cs: seq<TimeRange>, i: nat, original: TimeRange, out: seq<TimeRange>, range: TimeRange)
    requires i < |cs| && Valid(cs)
    requires SplitShape(cs, i, original, out, Some(range)) && SplitContent(cs, i, original, out, Some(range))
    ensures var (out', last') := SplitStep(cs[i], out, range);
            SplitContent(cs, i + 1, original, out', last')
  {
    var (out', last') := SplitStep(cs[i], out, range);
    var shield := TimeRange(cs[i].start, if cs[i].end + DAY != range.end then cs[i].end + DAY else cs[i].end);
    assert EndBy(out, cs[i].start);
    forall x ensures Keeps(out', last', x) <==> original.Has(x) && !Blocked(cs[..i + 1], original, x) {
      KeepsStep(out, range, shield, x);
      BlockedSnoc(cs, i, original, x);
      assert Keeps(out, Some(range), x) <==> original.Has(x) && !Blocked(cs[..i], original, x);
    }
  }

  /** The split loop removes exactly the shields of the clipped ranges. */
  method SplitAll(cs: seq<TimeRange>, original: TimeRange) returns (out: seq<TimeRange>)
    requires original.start < original.end
    requires Valid(cs) && SortedBy(cs, StartOf)
    ensures Separated(out)
    ensures forall x :: Covered(out, x) <==> original.Has(x) && !Blocked(cs, original, x)
    ensures forall k :: 0 <= k < |out| ==> StartsAtShieldEnd(out[k], cs, original)
  {
    out := [];
    var last := Some(original);
    var i := 0;
    while i < |cs| && last.Some?
      invariant 0 <= i <= |cs|
      invariant SplitShape(cs, i, original, out, last)
      invariant SplitStarts(cs, original, out, last)
      invariant SplitContent(cs, i, original, out, last)
    {
      SplitStepShape(cs, i, original, out, last.value);
      SplitStepContent(cs, i, original, out, last.value);
      var (out', last') := SplitStep(cs[i], out, last.value);
      out, last, i := out', last', i + 1;
    }
    PlanContent(cs, i, original, out, last);
    if last.Some? {
      out := out + [last.value];
    }
  }

  lemma PlanContent(cs: seq<TimeRange>, i: nat, original: TimeRange, out: seq<TimeRange>, last: Option<TimeRange>)
    requires i <= |cs| && (i == |cs| || last.None?)
    requires SplitShape(cs, i, original, out, last) && SplitContent(cs, i, original, out, last)
    ensures var plan := if last.Some? then out + [last.value] else out;
            forall x :: Covered(plan, x) <==> original.Has(x) && !Blocked(cs, original, x)
  {
    var plan := if last.Some? then out + [last.value] else out;
    forall x ensures Covered(plan, x) <==> original.Has(x) && !Blocked(cs, original, x) {
      assert Keeps(out, last, x) <==> original.Has(x) && !Blocked(cs[..i], original, x);
      if last.Some? {
        assert cs[..i] == cs;
        CoveredAppend(out, last.value, x);
      } else {
        BlockedSuffix(cs, i, original, out, x);
      }
    }
  }

  /** One split takes away exactly the instants of the shield. */
  lemma KeepsStep(out: seq<TimeRange>, range: TimeRange, shield: TimeRange, x: int)
    requires range.start < range.end && shield.start <= shield.end
    requires EndBy(out, shield.start)
    ensures var split := SplitByRange(range, shield);
            var out' := if split.Split? && split.left.Some? then out + [split.left.value] else out;
            var last' := if split.Split? then split.right else Some(range);
            Keeps(out', last', x) <==> Keeps(out, Some(range), x) && !shield.Has(x)
  {
    var split := SplitByRange(range, shield);
    if split.Split? && split.left.Some? {
      CoveredAppend(out, split.left.value, x);
    }
  }

  lemma BlockedSnoc(cs: seq<TimeRange>, i: nat, original: TimeRange, x: int)
    requires i < |cs|
    ensures Blocked(cs[..i + 1], original, x) <==> Blocked(cs[..i], original, x) || Blocks(cs[i], original, x)
  {
    var both := cs[..i + 1];
    if Blocked(cs[..i], original, x) {
      var k :| 0 <= k < i && Blocks(cs[..i][k], original, x);
      assert Blocks(both[k], original, x);
    }
    if Blocks(cs[i], original, x) {
      assert Blocks(both[i], original, x);
    }
    if Blocked(both, original, x) {
      var k :| 0 <= k <= i && Blocks(both[k], original, x);
      if k < i { assert cs[..i][k] == both[k]; }
    }
  }

  /** Ranges that start where the output has already ended take nothing from it. */
  lemma BlockedSuffix(cs: seq<TimeRange>, i: nat, original: TimeRange, out: seq<TimeRange>, x: int)
    requires i <= |cs|
    requires forall j :: i <= j < |cs| ==> EndBy(out, cs[j].start)
    requires Covered(out, x) <==> original.Has(x) && !Blocked(cs[..i], original, x)
    ensures Covered(out, x) <==> original.Has(x) && !Blocked(cs, original, x)
  {
    if Blocked(cs[..i], original, x) {
      var k :| 0 <= k < i && Blocks(cs[..i][k], original, x);
      assert Blocks(cs[k], original, x);
    }
    if Blocked(cs, original, x) {
      var k :| 0 <= k < |cs| && Blocks(cs[k], original, x);
      if k < i {
        assert Blocks(cs[..i][k], original, x);
      } else {
        assert EndBy(out, cs[k].start);
      }
    }
  }

  lemma CoveredAppend(out: seq<TimeRange>, r: TimeRange, x: int)
    ensures Covered(out + [r], x) <==> Covered(out, x) || r.Has(x)
  {
    var both := out + [r];
    if Covered(out, x) {
      var k :| 0 <= k < |out| && out[k].Has(x);
      assert both[k].Has(x);
    } else if r.Has(x) {
      assert both[|out|].Has(x);
    }
  }

  /** Exactly what is planned for deletion: the original range minus the shields of the clipped,
      flattened protected ranges, as ordered and pairwise disjoint ranges. */
  method GenerateTimeRangesForDeletion(extended: seq<TimeRange>, original: TimeRange, lastRetained: int)
    returns (plan: seq<TimeRange>)
    requires original.start < original.end && Valid(extended)
    ensures Separated(plan)
    ensures forall x :: Covered(plan, x) <==>
              original.Has(x) && !Blocked(Clipped(extended, original, lastRetained), original, x)
    ensures forall k :: 0 <= k < |plan| ==>
              StartsAtShieldEnd(plan[k], Clipped(extended, original, lastRetained), original)
  {
    var flat := FlattenOverlappingRanges(extended);
    ClippedValid(extended, original, lastRetained);
    var clipped := SortBy(ClipAll(flat, original, lastRetained), StartOf);
    plan := SplitAll(clipped, original);
  }

  /** The sandwich: a plan never meets a clipped protected range, and it covers everything outside
      the day-extended ones. */
  lemma RetentionSandwich(cs: seq<TimeRange>, original: TimeRange, plan: seq<TimeRange>, x: int)
    requires forall y :: Covered(plan, y) <==> original.Has(y) && !Blocked(cs, original, y)
    ensures Covered(plan, x) ==> original.Has(x) && forall i :: 0 <= i < |cs| ==> !cs[i].Has(x)
    ensures original.Has(x) && !Shielded(cs, x) ==> Covered(plan, x)
  {
    if Covered(plan, x) {
      forall i | 0 <= i < |cs| ensures !cs[i].Has(x) {
        assert !Blocks(cs[i], original, x);
      }
    }
    if Blocked(cs, original, x) {
      var i :| 0 <= i < |cs| && Blocks(cs[i], original, x);
      assert Shields(cs[i], x);
    }
  }

  /** The last day of a range that ends exactly one day before the retention boundary. */
  predicate OnDroppedLastDay(r: TimeRange, original: TimeRange, x: int) {
    r.end + DAY == original.end && r.end <= x
  }

  /** The range protects the instant: it is one of its days, but not a dropped last day, and neither
      the instant nor the range's stored end is older than the extended retention period. */
  predicate Protects(r: TimeRange, original: TimeRange, lastRetained: int, x: int) {
    Shields(r, x) && !OnDroppedLastDay(r, original, x) && lastRetained <= x && lastRetained <= r.end
  }

  lemma ClipBlocks(r: TimeRange, original: TimeRange, lastRetained: int, x: int)
    requires r.start <= r.end && x < original.end
    ensures var c := ClipOne(r, original, lastRetained);
            (c.Some? && Blocks(c.value, original, x)) <==> Protects(r, original, lastRetained, x)
  {
  }

  /** The shields after clipping and the flattened ranges before it protect the same instants. */
  lemma BlockedIff(extended: seq<TimeRange>, original: TimeRange, lastRetained: int, x: int)
    requires Valid(extended) && x < original.end
    ensures Blocked(Clipped(extended, original, lastRetained), original, x) <==>
            exists r :: r in Flattened(extended) && Protects(r, original, lastRetained, x)
  {
    FlattenLosslessIff(extended);
    ClippedValid(extended, original, lastRetained);
    var flat, cs := Flattened(extended), Clipped(extended, original, lastRetained);
    forall r | r in flat && Protects(r, original, lastRetained, x) ensures Blocked(cs, original, x) {
      ClipBlocks(r, original, lastRetained, x);
      var c := ClipOne(r, original, lastRetained).value;
      assert c in cs;
      var i :| 0 <= i < |cs| && cs[i] == c;
    }
    if Blocked(cs, original, x) {
      var i :| 0 <= i < |cs| && Blocks(cs[i], original, x);
      assert cs[i] in cs;
      var r :| r in flat && ClipOne(r, original, lastRetained) == Some(cs[i]);
      ClipBlocks(r, original, lastRetained, x);
    }
  }

  /** Why a red day of the settings is not protected although flattening has kept it. */
  ghost predicate LostByClipping(extended: seq<TimeRange>, original: TimeRange, lastRetained: int, x: int) {
    exists r :: r in Flattened(extended) && Shields(r, x) &&
                (OnDroppedLastDay(r, original, x) || x < lastRetained || r.end < lastRetained)
  }

  lemma UnblockedRedDay(extended: seq<TimeRange>, original: TimeRange, lastRetained: int, x: int)
    requires Valid(extended) && Lossless(extended) && Shielded(extended, x) && x < original.end
    requires !Blocked(Clipped(extended, original, lastRetained), original, x)
    ensures LostByClipping(extended, original, lastRetained, x)
  {
    var flat := Flattened(extended);
    FlattenLosslessIff(extended);
    BlockedIff(extended, original, lastRetained, x);
    var k :| 0 <= k < |flat| && Shields(flat[k], x);
    assert flat[k] in flat && !Protects(flat[k], original, lastRetained, x);
  }

  /** An instant of the original range is planned for deletion if and only if no flattened range
      protects it; with lossless settings a planned red day was lost by clipping. */
  lemma RedDayPlannedIff(extended: seq<TimeRange>, original: TimeRange, lastRetained: int, plan: seq<TimeRange>, x: int)
    requires Valid(extended)
    requires forall y :: Covered(plan, y) <==>
               original.Has(y) && !Blocked(Clipped(extended, original, lastRetained), original, y)
    requires original.Has(x)
    ensures Covered(plan, x) <==> forall r :: r in Flattened(extended) ==> !Protects(r, original, lastRetained, x)
    ensures Lossless(extended) && Shielded(extended, x) && Covered(plan, x) ==>
            LostByClipping(extended, original, lastRetained, x)
  {
    BlockedIff(extended, original, lastRetained, x);
    if Lossless(extended) && Shielded(extended, x) && Covered(plan, x) {
      UnblockedRedDay(extended, original, lastRetained, x);
    }
  }

  lemma SingleClipped(r: TimeRange, original: TimeRange, lastRetained: int)
    ensures Lossless([r]) && Flattened([r]) == [r]
    ensures Clipped([r], original, lastRetained) ==
            match ClipOne(r, original, lastRetained) case Some(c) => [c] case None => []
  {
    assert [r][1..] == [];
    assert SortBy([r], StartOf) == [r];
    assert ClipAll([], original, lastRetained) == [];
    match ClipOne(r, original, lastRetained)
    case Some(c) =>
      assert ClipAll([r], original, lastRetained) == [c] + [] == [c];
      assert [c][1..] == [];
      assert SortBy([c], StartOf) == [c];
    case None =>
      assert ClipAll([r], original, lastRetained) == [];
  }

  /** The exception in the split loop: a red day that is the last day before the boundary is
      planned for deletion. */
  lemma LastRedDayIsPlanned()
    ensures var original := TimeRange(10 * DAY, 20 * DAY);
            var extended := [TimeRange(18 * DAY, 19 * DAY)];
            && Lossless(extended) && Shielded(extended, 19 * DAY)
            && !Blocked(Clipped(extended, original, 0), original, 19 * DAY)
  {
    var original, r := TimeRange(10 * DAY, 20 * DAY), TimeRange(18 * DAY, 19 * DAY);
    SingleClipped(r, original, 0);
    assert Shields([r][0], 19 * DAY);
  }

  /** The last day of a range is dropped as well when the extended retention period starts during
      that day: the filter compares with the range's stored end, which leaves the last day out. */
  lemma FirstRetainedRedDayIsPlanned()
    ensures var original := TimeRange(DAY, 20 * DAY);
            var extended := [TimeRange(8 * DAY, 10 * DAY)];
            var lastRetained, x := 10 * DAY + HOUR, 10 * DAY + 2 * HOUR;
            && Lossless(extended) && Shielded(extended, x) && lastRetained <= x && original.Has(x)
            && !Blocked(Clipped(extended, original, lastRetained), original, x)
            && !OnDroppedLastDay(extended[0], original, x)
  {
    var original, r := TimeRange(DAY, 20 * DAY), TimeRange(8 * DAY, 10 * DAY);
    SingleClipped(r, original, 10 * DAY + HOUR);
    assert Shields([r][0], 10 * DAY + 2 * HOUR);
  }

  // ----- Jobs -----

  function DayOf(t: int): int { t / DAY }

  function HourFloor(t: int): int { t - t % HOUR }

  lemma DayBounds(t: int)
    ensures DayOf(t) * DAY <= t < DayOf(t) * DAY + DAY
  {
  }

  lemma DayShift(t: int)
    ensures DayOf(t + DAY) == DayOf(t) + 1
  {
  }

  /** The days that get a job: from the day of `start`, as many as whole days fit before `end`. */
  predicate GetsJob(start: int, end: int, d: int) {
    DayOf(start) <= d < DayOf(end) && !(d == DayOf(end) - 1 && start % DAY > end % DAY)
  }

  predicate WholeDay(start: int, end: int, d: int) {
    start <= d * DAY && (d + 1) * DAY <= end
  }

  /** The jobs of `[start, end)`; dates are numbered by day. */
  method GenerateDeletionDates(start: int, end: int) returns (jobs: seq<int>)
    ensures forall k :: 0 <= k < |jobs| ==> jobs[k] == DayOf(start) + k
    ensures jobs != [] ==> start + |jobs| * DAY <= end
    ensures start + |jobs| * DAY + DAY > end
    ensures forall d :: d in jobs <==> GetsJob(start, end, d)
  {
    jobs := [];
    var s := start;
    while s + DAY <= end
      invariant s == start + |jobs| * DAY
      invariant DayOf(s) == DayOf(start) + |jobs|
      invariant jobs != [] ==> s <= end
      invariant forall k :: 0 <= k < |jobs| ==> jobs[k] == DayOf(start) + k
      decreases end - s
    {
      DayShift(s);
      jobs := jobs + [DayOf(s)];
      s := s + DAY;
    }
    CountedDays(start, end, |jobs|);
    forall d ensures d in jobs <==> GetsJob(start, end, d) {
      if GetsJob(start, end, d) { assert jobs[d - DayOf(start)] == d; }
    }
  }

  /** As many days as fit, counted from the day of `start`, are the days that get a job. */
  lemma CountedDays(start: int, end: int, n: nat)
    requires n > 0 ==> start + n * DAY <= end
    requires start + n * DAY + DAY > end
    ensures forall d :: DayOf(start) <= d < DayOf(start) + n <==> GetsJob(start, end, d)
  {
    var a, b := DayOf(start), DayOf(end);
    assert start == a * DAY + start % DAY && end == b * DAY + end % DAY;
    if n > 0 { DayGap(a + n - b, end % DAY - start % DAY); }
    DayGap(b - a - n - 1, start % DAY - end % DAY - 1);
  }

  lemma DayGap(days: int, rest: int)
    requires days * DAY <= rest && -DAY <= rest < DAY
    ensures days <= 0 && (rest < 0 ==> days < 0)
  {
  }

  /** Jobs against whole days: a whole day gets its job unless it is the last one and the range
      starts later in the day than it ends, and a job's day is whole unless it is the first one and
      the range starts after midnight. */
  lemma WholeDayJobIff(start: int, end: int, d: int)
    ensures WholeDay(start, end, d) ==> (GetsJob(start, end, d) <==> !(d == DayOf(end) - 1 && start % DAY > end % DAY))
    ensures GetsJob(start, end, d) ==> (WholeDay(start, end, d) <==> !(d == DayOf(start) && start % DAY > 0))
  {
    DayBounds(start);
    DayBounds(end);
    if WholeDay(start, end, d) {
      DayOrder(start, d);
    }
  }

  lemma DayOrder(start: int, d: int)
    requires start <= d * DAY
    ensures DayOf(start) <= d
  {
    DayBounds(start);
  }

  /** So the jobs are exactly those of the whole days if and only if the range starts at midnight or
      is shorter than a day. */
  lemma JobsAreWholeDaysIff(start: int, end: int)
    ensures (forall d :: GetsJob(start, end, d) <==> WholeDay(start, end, d)) <==>
            (start % DAY == 0 || end < start + DAY)
  {
    if end < start + DAY {
      CountedDays(start, end, 0);
    } else {
      var n := (end - start) / DAY;
      assert n > 0 && start + n * DAY <= end < start + n * DAY + DAY;
      CountedDays(start, end, n);
      assert GetsJob(start, end, DayOf(start));
      WholeDayJobIff(start, end, DayOf(start));
      if start % DAY == 0 {
        forall d ensures GetsJob(start, end, d) <==> WholeDay(start, end, d) {
          WholeDayJobIff(start, end, d);
        }
      }
    }
  }

  /** Neither direction holds in general: from 23:00 of day 0 to 15:00 of day 5, day 0 gets a job
      although it is only partly in the range, and day 4 gets none although it is whole. */
  lemma PartialDayGetsJob()
    ensures var start, end := 23 * HOUR, 5 * DAY + 15 * HOUR;
            && GetsJob(start, end, 0) && !WholeDay(start, end, 0)
            && !GetsJob(start, end, 4) && WholeDay(start, end, 4)
  {
    assert DayOf(23 * HOUR) == 0 && (23 * HOUR) % DAY == 23 * HOUR;
    assert DayOf(5 * DAY + 15 * HOUR) == 5 && (5 * DAY + 15 * HOUR) % DAY == 15 * HOUR;
  }

  /** The inclusive time range that a job for day `d` deletes, with the hack for day 0. */
  function JobRange(d: int): (int, int) {
    ((if d == 0 then 1000 else d * DAY), (d + 1) * DAY - 1)
  }

  /** A job deletes every instant of its day; day 0 starts one millisecond late. */
  lemma JobCoversDay(d: int, x: int)
    ensures JobRange(d).0 <= x <= JobRange(d).1 <==> d * DAY <= x < (d + 1) * DAY && (d == 0 ==> 1000 <= x)
  {
  }

  /** What the metadata store answers for the earliest data hour in a range. */
  type MinDate = (int, int) -> Option<int>

  /** An hour with data, told by its first instant, that is asked for by a range: from the hour of its
      start to before the hour of its end. */
  ghost predicate Asked(hours: set<int>, a: int, b: int, h: int) {
    h in hours && HourFloor(a) <= h < HourFloor(b)
  }

  ghost predicate Earliest(hours: set<int>, a: int, b: int, h: int) {
    Asked(hours, a, b, h) && forall x :: Asked(hours, a, b, x) ==> h <= x
  }

  /** The store knows the hours with data. */
  ghost predicate AnswersFrom(minDate: MinDate, hours: set<int>) {
    forall a, b ::
      match minDate(a, b)
      case Some(h) => Earliest(hours, a, b, h)
      case None => forall x :: !Asked(hours, a, b, x)
  }

  ghost predicate JobSafe(cs: seq<TimeRange>, original: TimeRange, d: int) {
    forall x :: JobRange(d).0 <= x <= JobRange(d).1 ==> x < original.end && !Blocked(cs, original, x)
  }

  /** A shield ends inside the job's day, after its first instant. */
  ghost predicate EndsInside(cs: seq<TimeRange>, original: TimeRange, d: int) {
    exists i :: 0 <= i < |cs| && ShieldEndsInside(cs[i], original, d)
  }

  predicate ShieldEndsInside(c: TimeRange, original: TimeRange, d: int) {
    var end := ShieldEnd(c, original);
    c.start < end && JobRange(d).0 < end <= JobRange(d).1
  }

  /** The day of a start time that is at most an hour too early still holds the start of its range. */
  lemma DayHoldsRangeStart(rangeStart: int, start: int, n: nat)
    requires HourFloor(rangeStart) <= start
    ensures rangeStart < (DayOf(start) + n + 1) * DAY
  {
    var midnight := (DayOf(start) + 1) * DAY;
    DayBounds(start);
    HourFloored(rangeStart);
    MidnightIsHour(DayOf(start) + 1);
    HourBefore(HourFloor(rangeStart), midnight);
    DayLater(DayOf(start) + 1, n);
  }

  lemma MidnightIsHour(d: int)
    ensures (d * DAY) % HOUR == 0
  {
    assert d * DAY == (d * 24) * HOUR;
  }

  lemma DayLater(d: int, n: nat)
    ensures d * DAY <= (d + n) * DAY
  {
  }

  lemma HourBefore(a: int, b: int)
    requires a % HOUR == 0 && b % HOUR == 0 && a < b
    ensures a + HOUR <= b
  {
    var i, j := a / HOUR, b / HOUR;
    assert a == i * HOUR && b == j * HOUR;
  }

  lemma HourFloored(t: int)
    ensures HourFloor(t) % HOUR == 0 && HourFloor(t) <= t < HourFloor(t) + HOUR
  {
    assert t == HOUR * (t / HOUR) + t % HOUR;
  }

  /** A generated day lies before the end of its planned range, and reaches its start. */
  lemma JobDay(r: TimeRange, createdAt: int, start: int, n: nat)
    requires if r.start <= createdAt then start == createdAt else HourFloor(r.start) <= start
    requires start + (n + 1) * DAY <= r.end
    ensures var d := DayOf(start) + n;
            JobRange(d).1 < r.end && r.start <= JobRange(d).1
  {
    DayBounds(start);
    HourFloored(r.start);
    DayHoldsRangeStart(r.start, start, n);
    assert (DayOf(start) + n + 1) * DAY == DayOf(start) * DAY + (n + 1) * DAY;
  }

  /** A shield that holds an instant of the day before an open one ends in between. */
  lemma BlockedBefore(cs: seq<TimeRange>, original: TimeRange, d: int, open: int, x: int)
    requires JobRange(d).0 <= x < open <= JobRange(d).1
    requires Blocked(cs, original, x) && !Blocked(cs, original, open)
    ensures EndsInside(cs, original, d)
  {
    var i :| 0 <= i < |cs| && Blocks(cs[i], original, x);
    assert !Blocks(cs[i], original, open);
    assert ShieldEndsInside(cs[i], original, d);
  }

  /** The exact condition: a day job of the plan, widened to its whole day, is safe if and only if no
      shield ends inside that day. */
  lemma DayJobSafeIff(cs: seq<TimeRange>, original: TimeRange, plan: seq<TimeRange>, k: nat, start: int, n: nat)
    requires Separated(plan) && k < |plan|
    requires forall x :: Covered(plan, x) <==> original.Has(x) && !Blocked(cs, original, x)
    requires if plan[k].start <= original.start then start == original.start else HourFloor(plan[k].start) <= start
    requires start + (n + 1) * DAY <= plan[k].end
    ensures var d := DayOf(start) + n;
            JobRange(d).1 < original.end && (JobSafe(cs, original, d) <==> !EndsInside(cs, original, d))
  {
    var r, d := plan[k], DayOf(start) + n;
    JobDay(r, original.start, start, n);
    assert r.Has(r.end - 1) && Covered(plan, r.end - 1);
    assert r.Has(r.start) && Covered(plan, r.start);
    if EndsInside(cs, original, d) {
      var i :| 0 <= i < |cs| && ShieldEndsInside(cs[i], original, d);
      var x := ShieldEnd(cs[i], original) - 1;
      assert Blocks(cs[i], original, x) && Blocked(cs, original, x);
      assert JobRange(d).0 <= x <= JobRange(d).1;
    } else {
      forall x | JobRange(d).0 <= x <= JobRange(d).1 ensures x < original.end && !Blocked(cs, original, x) {
        if r.start <= x {
          assert r.Has(x) && Covered(plan, x);
        } else if Blocked(cs, original, x) {
          BlockedBefore(cs, original, d, r.start, x);
        }
      }
    }
  }

  /** Shields that end at midnight, or beyond the boundary, end inside no job's day. */
  lemma AlignedEndsNotInside(cs: seq<TimeRange>, original: TimeRange, d: int)
    requires forall c :: c in cs ==> c.end % DAY == 0 || c.end == original.end
    requires JobRange(d).1 < original.end
    ensures !EndsInside(cs, original, d)
  {
    forall i | 0 <= i < |cs| ensures !ShieldEndsInside(cs[i], original, d) {
      assert cs[i] in cs;
      var end := ShieldEnd(cs[i], original);
      if cs[i].end != original.end {
        NoMidnightInside(end, d);
      }
    }
  }

  lemma NoMidnightInside(t: int, d: int)
    requires t % DAY == 0
    ensures !(d * DAY < t <= (d + 1) * DAY - 1)
  {
    var j := t / DAY;
    assert t == j * DAY;
  }

  /** The alignment is needed: a protected range that ends at noon shields its last day until the
      next noon, and the job for the rest of that day, widened to the whole day, deletes the
      shielded morning. */
  lemma NoonEndIsUnsafe()
    ensures var original := TimeRange(DAY, 20 * DAY);
            var c := TimeRange(8 * DAY, 10 * DAY + 12 * HOUR);
            var start := ShieldEnd(c, original);
            && start % HOUR == 0 && start + DAY <= original.end
            && Blocked([c], original, 11 * DAY) && DayOf(start) == 11 && !JobSafe([c], original, DayOf(start))
  {
    var original, c := TimeRange(DAY, 20 * DAY), TimeRange(8 * DAY, 10 * DAY + 12 * HOUR);
    assert ShieldEnd(c, original) == 11 * DAY + 12 * HOUR;
    assert DayOf(11 * DAY + 12 * HOUR) == 11;
    assert Blocks([c][0], original, 11 * DAY);
    assert Blocked([c], original, 11 * DAY);
    assert JobRange(11).0 <= 11 * DAY <= JobRange(11).1;
    assert (11 * DAY + 12 * HOUR) % HOUR == 0;
  }

  /** What is known of a job: it stays before the boundary, and it is safe exactly when no shield
      ends inside its day. */
  ghost predicate JobExact(cs: seq<TimeRange>, original: TimeRange, d: int) {
    JobRange(d).1 < original.end && (JobSafe(cs, original, d) <==> !EndsInside(cs, original, d))
  }

  /** Where the jobs of a planned range start: at the earliest data of the stream or of the range,
      and nowhere if the range holds no data. */
  function JobStart(r: TimeRange, createdAt: int, minDate: MinDate): Option<int> {
    if r.start <= createdAt then Some(createdAt) else minDate(r.start, r.end)
  }

  /** The jobs of a planned range start at `start`: the creation of the stream, or the earliest hour with
      data that the range asks for. */
  ghost predicate StartsAt(r: TimeRange, createdAt: int, hours: set<int>, start: int) {
    if r.start <= createdAt then start == createdAt else Earliest(hours, r.start, r.end, start)
  }

  lemma JobStartIs(r: TimeRange, createdAt: int, minDate: MinDate, hours: set<int>, start: int)
    requires AnswersFrom(minDate, hours)
    ensures JobStart(r, createdAt, minDate) == Some(start) <==> StartsAt(r, createdAt, hours, start)
  {
  }

  ghost predicate RangeJob(r: TimeRange, createdAt: int, hours: set<int>, d: int) {
    exists start :: StartsAt(r, createdAt, hours, start) && GetsJob(start, r.end, d)
  }

  ghost predicate PlanJob(plan: seq<TimeRange>, createdAt: int, hours: set<int>, d: int) {
    exists k :: 0 <= k < |plan| && RangeJob(plan[k], createdAt, hours, d)
  }

  ghost predicate JobsOfPlan(jobs: seq<int>, plan: seq<TimeRange>, createdAt: int, hours: set<int>) {
    forall d :: d in jobs <==> PlanJob(plan, createdAt, hours, d)
  }

  lemma JobsOfPlanSnoc(jobs: seq<int>, days: seq<int>, plan: seq<TimeRange>, k: nat, createdAt: int, hours: set<int>)
    requires k < |plan| && JobsOfPlan(jobs, plan[..k], createdAt, hours)
    requires forall d :: d in days <==> RangeJob(plan[k], createdAt, hours, d)
    ensures JobsOfPlan(jobs + days, plan[..k + 1], createdAt, hours)
  {
    var before, after := plan[..k], plan[..k + 1];
    forall d ensures d in jobs + days <==> PlanJob(after, createdAt, hours, d) {
      if PlanJob(before, createdAt, hours, d) {
        var i :| 0 <= i < k && RangeJob(before[i], createdAt, hours, d);
        assert after[i] == before[i];
      }
      if d in days { assert RangeJob(after[k], createdAt, hours, d); }
      if PlanJob(after, createdAt, hours, d) {
        var i :| 0 <= i <= k && RangeJob(after[i], createdAt, hours, d);
        assert i < k ==> before[i] == after[i];
      }
    }
  }

  /** A day of a range has a job if and only if it gets one from where the range's jobs start. */
  lemma RangeDays(r: TimeRange, createdAt: int, minDate: MinDate, hours: set<int>, days: seq<int>)
    requires AnswersFrom(minDate, hours)
    requires var start := JobStart(r, createdAt, minDate);
             forall d :: d in days <==> start.Some? && GetsJob(start.value, r.end, d)
    ensures forall d :: d in days <==> RangeJob(r, createdAt, hours, d)
  {
    var start := JobStart(r, createdAt, minDate);
    forall s: int ensures start == Some(s) <==> StartsAt(r, createdAt, hours, s) {
      JobStartIs(r, createdAt, minDate, hours, s);
    }
    if start.Some? { assert StartsAt(r, createdAt, hours, start.value); }
  }

  /** Every whole day of a planned range, from where its jobs start on, has a job, unless it is the last
      one and the jobs start later in the day than the range ends. */
  lemma WholePlannedDayHasJob(jobs: seq<int>, plan: seq<TimeRange>, createdAt: int, hours: set<int>, k: nat, start: int,
                              d: int)
    requires JobsOfPlan(jobs, plan, createdAt, hours) && k < |plan| && StartsAt(plan[k], createdAt, hours, start)
    requires start <= d * DAY && (d + 1) * DAY <= plan[k].end
    requires !(d == DayOf(plan[k].end) - 1 && start % DAY > plan[k].end % DAY)
    ensures d in jobs
  {
    WholeDayJobIff(start, plan[k].end, d);
    assert RangeJob(plan[k], createdAt, hours, d);
    assert PlanJob(plan, createdAt, hours, d);
  }

  /** So every hour with data that a later planned range asks for is in the day of a job, unless its day
      is not over when the range ends, or is the last one in the case above. */
  lemma PlannedDataHasJob(jobs: seq<int>, plan: seq<TimeRange>, createdAt: int, hours: set<int>, k: nat, h: int)
    returns (start: int)
    requires JobsOfPlan(jobs, plan, createdAt, hours) && k < |plan| && createdAt < plan[k].start
    requires Asked(hours, plan[k].start, plan[k].end, h)
    ensures Earliest(hours, plan[k].start, plan[k].end, start) && start <= h
    ensures DayOf(h) < DayOf(plan[k].end) && !(DayOf(h) == DayOf(plan[k].end) - 1 && start % DAY > plan[k].end % DAY)
            ==> DayOf(h) in jobs
  {
    start := EarliestExists(hours, plan[k].start, plan[k].end, h);
    DayBounds(h);
    DayBounds(start);
    if GetsJob(start, plan[k].end, DayOf(h)) {
      assert StartsAt(plan[k], createdAt, hours, start);
      assert RangeJob(plan[k], createdAt, hours, DayOf(h));
      assert PlanJob(plan, createdAt, hours, DayOf(h));
    }
  }

  lemma {:induction false} EarliestExists(hours: set<int>, a: int, b: int, h: int) returns (first: int)
    requires Asked(hours, a, b, h)
    ensures Earliest(hours, a, b, first)
    decreases h - HourFloor(a)
  {
    if x :| Asked(hours, a, b, x) && x < h {
      first := EarliestExists(hours, a, b, x);
    } else {
      first := h;
    }
  }

  /** A later planned range without data has no job. */
  lemma EmptyRangeHasNoJob(r: TimeRange, createdAt: int, hours: set<int>, d: int)
    requires createdAt < r.start && forall h :: !Asked(hours, r.start, r.end, h)
    ensures !RangeJob(r, createdAt, hours, d)
  {
  }

  /** With one protected range in the middle and data in every hour, both sides of it get their jobs. */
  lemma BothSidesGetJobs(jobs: seq<int>, hours: set<int>)
    requires forall i :: 1 * 24 <= i < 20 * 24 ==> i * HOUR in hours
    requires JobsOfPlan(jobs, [TimeRange(1 * DAY, 8 * DAY), TimeRange(10 * DAY, 20 * DAY)], 1 * DAY, hours)
    ensures forall d :: 1 <= d < 8 || 10 <= d < 20 ==> d in jobs
  {
    var plan := [TimeRange(1 * DAY, 8 * DAY), TimeRange(10 * DAY, 20 * DAY)];
    assert 10 * 24 * HOUR in hours && Asked(hours, 10 * DAY, 20 * DAY, 10 * DAY);
    forall d | 1 <= d < 8 || 10 <= d < 20 ensures d in jobs {
      if d < 8 {
        assert StartsAt(plan[0], 1 * DAY, hours, 1 * DAY);
        WholePlannedDayHasJob(jobs, plan, 1 * DAY, hours, 0, 1 * DAY, d);
      } else {
        assert StartsAt(plan[1], 1 * DAY, hours, 10 * DAY);
        WholePlannedDayHasJob(jobs, plan, 1 * DAY, hours, 1, 10 * DAY, d);
      }
    }
  }

  /** The plan is the original range minus the shields of the clipped ranges. */
  ghost predicate ExactPlan(plan: seq<TimeRange>, cs: seq<TimeRange>, original: TimeRange) {
    Separated(plan) && forall x :: Covered(plan, x) <==> original.Has(x) && !Blocked(cs, original, x)
  }

  lemma DaysExact(cs: seq<TimeRange>, original: TimeRange, plan: seq<TimeRange>, k: nat, start: int, days: seq<int>)
    requires ExactPlan(plan, cs, original) && k < |plan|
    requires if plan[k].start <= original.start then start == original.start else HourFloor(plan[k].start) <= start
    requires forall n :: 0 <= n < |days| ==> days[n] == DayOf(start) + n
    requires days != [] ==> start + |days| * DAY <= plan[k].end
    ensures forall n :: 0 <= n < |days| ==> JobExact(cs, original, days[n])
  {
    forall n | 0 <= n < |days| ensures JobExact(cs, original, days[n]) {
      assert (n + 1) * DAY <= |days| * DAY;
      DayJobSafeIff(cs, original, plan, k, start, n);
    }
  }

  /** The jobs of one retention run, for any stored ranges: they are those of the plan's ranges, no
      job reaches the retention boundary, and a job spares every shield if and only if none ends
      inside its day.  So all jobs do when the stored ranges end at midnight. */
  method GenerateRetentionJobs(createdAt: int, lifecycleEnd: int, lastRetained: int,
                               extended: seq<TimeRange>, minDate: MinDate, ghost hours: set<int>)
    returns (jobs: seq<int>, ghost plan: seq<TimeRange>)
    requires Valid(extended) && AnswersFrom(minDate, hours)
    ensures createdAt >= lifecycleEnd ==> jobs == [] && plan == []
    ensures createdAt < lifecycleEnd ==>
              var original := TimeRange(createdAt, lifecycleEnd);
              ExactPlan(plan, Clipped(extended, original, lastRetained), original)
    ensures JobsOfPlan(jobs, plan, createdAt, hours)
    ensures var original := TimeRange(createdAt, lifecycleEnd);
            var cs := Clipped(extended, original, lastRetained);
            && (forall j :: 0 <= j < |jobs| ==> JobExact(cs, original, jobs[j]))
            && ((forall r :: r in extended ==> r.end % DAY == 0) ==>
                  forall j :: 0 <= j < |jobs| ==> JobSafe(cs, original, jobs[j]))
  {
    jobs, plan := [], [];
    if createdAt >= lifecycleEnd { return; }
    var original := TimeRange(createdAt, lifecycleEnd);
    ghost var cs := Clipped(extended, original, lastRetained);
    var ranges := GenerateTimeRangesForDeletion(extended, original, lastRetained);
    plan := ranges;
    for k := 0 to |ranges|
      invariant JobsOfPlan(jobs, ranges[..k], createdAt, hours)
      invariant forall j :: 0 <= j < |jobs| ==> JobExact(cs, original, jobs[j])
    {
      var days := [];
      var start := JobStart(ranges[k], createdAt, minDate);
      if start.Some? {
        days := GenerateDeletionDates(start.value, ranges[k].end);
        JobStartIs(ranges[k], createdAt, minDate, hours, start.value);
        DaysExact(cs, original, ranges, k, start.value, days);
      }
      RangeDays(ranges[k], createdAt, minDate, hours, days);
      JobsOfPlanSnoc(jobs, days, ranges, k, createdAt, hours);
      jobs := jobs + days;
    }
    assert ranges[..|ranges|] == ranges;
    if forall r :: r in extended ==> r.end % DAY == 0 {
      AlignedJobsSafe(extended, original, lastRetained, jobs);
    }
  }

  lemma AlignedJobsSafe(extended: seq<TimeRange>, original: TimeRange, lastRetained: int, jobs: seq<int>)
    requires Valid(extended) && forall r :: r in extended ==> r.end % DAY == 0
    requires forall j :: 0 <= j < |jobs| ==> JobExact(Clipped(extended, original, lastRetained), original, jobs[j])
    ensures forall j :: 0 <= j < |jobs| ==> JobSafe(Clipped(extended, original, lastRetained), original, jobs[j])
  {
    var cs := Clipped(extended, original, lastRetained);
    AlignedClip(extended, original, lastRetained);
    forall j | 0 <= j < |jobs| ensures JobSafe(cs, original, jobs[j]) {
      AlignedEndsNotInside(cs, original, jobs[j]);
    }
  }

  /** Safety in terms of the settings: a safe job deletes no protected instant, and with lossless
      settings every red day that it deletes was lost by clipping. */
  lemma SafeJobKeepsRedDays(extended: seq<TimeRange>, original: TimeRange, lastRetained: int, d: int, x: int)
    requires Valid(extended) && JobSafe(Clipped(extended, original, lastRetained), original, d)
    requires JobRange(d).0 <= x <= JobRange(d).1
    ensures forall r :: r in Flattened(extended) ==> !Protects(r, original, lastRetained, x)
    ensures Lossless(extended) && Shielded(extended, x) ==> LostByClipping(extended, original, lastRetained, x)
  {
    assert !Blocked(Clipped(extended, original, lastRetained), original, x) && x < original.end;
    BlockedIff(extended, original, lastRetained, x);
    if Lossless(extended) && Shielded(extended, x) {
      UnblockedRedDay(extended, original, lastRetained, x);
    }
  }

  /** The hack for 1970-01-01 keeps a day job away from the labels 0 and 1, which the file list
      table refuses. */
  lemma JobRangeIsLabel(d: int)
    ensures JobRange(d).0 != 0 && JobRange(d).1 != 1
  {
    assert ((d + 1) * DAY) % DAY == 0;
  }

  lemma {:induction false} FlattenAligned(current: TimeRange, rest: seq<TimeRange>)
    requires current.end % DAY == 0 && forall r :: r in rest ==> r.end % DAY == 0
    ensures forall r :: r in FlattenFrom(current, rest) ==> r.end % DAY == 0
    decreases |rest|
  {
    if rest != [] {
      if current.Intersects(rest[0]) {
        FlattenAligned(TimeRange(current.start, rest[0].end), rest[1..]);
      } else {
        FlattenAligned(rest[0], rest[1..]);
      }
    }
  }

  lemma AlignedClip(extended: seq<TimeRange>, original: TimeRange, lastRetained: int)
    requires Valid(extended) && forall r :: r in extended ==> r.end % DAY == 0
    ensures forall c :: c in Clipped(extended, original, lastRetained) ==> c.end % DAY == 0 || c.end == original.end
  {
    var sorted := SortBy(extended, StartOf);
    SortBySound(extended, StartOf);
    if sorted != [] {
      forall r | r in sorted[1..] ensures r.end % DAY == 0 {
        assert r in sorted;
      }
      assert sorted[0] in extended;
      FlattenAligned(sorted[0], sorted[1..]);
    }
    ClippedValid(extended, original, lastRetained);
  }
}
