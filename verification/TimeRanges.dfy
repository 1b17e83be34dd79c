/** Time ranges in microseconds, half-open, as the stream settings store them. */
module TimeRanges {
  import opened Options
  import opened Sorting

  const HOUR := 3_600_000_000
  const DAY := 86_400_000_000

  datatype TimeRange = TimeRange(start: int, end: int) {
    predicate Has(x: int) {
      start <= x < end
    }

    predicate Intersects(other: TimeRange) {
      start < other.end && end > other.start
    }
  }

  datatype Split = Split(left: Option<TimeRange>, right: Option<TimeRange>) | Disjoint

  function SplitByRange(self: TimeRange, other: TimeRange): (r: Split)
    ensures self.start < self.end && other.start <= other.end && r.Split? ==>
              && (r.left.Some? ==> self.start == r.left.value.start < r.left.value.end == other.start)
              && (r.right.Some? ==> other.end == r.right.value.start < r.right.value.end == self.end)
              && forall x :: self.Has(x) && !other.Has(x) <==>
                   (r.left.Some? && r.left.value.Has(x)) || (r.right.Some? && r.right.value.Has(x))
    ensures self.start < self.end && r.Disjoint? ==> forall x :: !(self.Has(x) && other.Has(x))
  {
    if self == other then Split(None, None)
    else if !self.Intersects(other) then Disjoint
    else
      Split(if self.start < other.start then Some(TimeRange(self.start, other.start)) else None,
            if self.end > other.end then Some(TimeRange(other.end, self.end)) else None)
  }

  function StartOf(r: TimeRange): int { r.start }

  predicate Valid(rs: seq<TimeRange>) {
    forall i :: 0 <= i < |rs| ==> rs[i].start <= rs[i].end
  }

  // ----- Flattening -----

  function FlattenFrom(current: TimeRange, rest: seq<TimeRange>): seq<TimeRange>
    decreases |rest|
  {
    if rest == [] then [current]
    else if current.Intersects(rest[0]) then FlattenFrom(TimeRange(current.start, rest[0].end), rest[1..])
    else [current] + FlattenFrom(rest[0], rest[1..])
  }

  method FlattenOverlappingRanges(ranges: seq<TimeRange>) returns (result: seq<TimeRange>)
    ensures result == Flattened(ranges)
  {
    var sorted := SortBy(ranges, StartOf);
    if sorted == [] { return []; }
    result := [];
    var current := sorted[0];
    ghost var all := FlattenFrom(current, sorted[1..]);
    for i := 1 to |sorted|
      invariant result + FlattenFrom(current, sorted[i..]) == all
    {
      assert sorted[i..][0] == sorted[i] && sorted[i..][1..] == sorted[i + 1..];
      if current.Intersects(sorted[i]) {
        current := TimeRange(current.start, sorted[i].end);
      } else {
        result := result + [current];
        current := sorted[i];
      }
    }
    result := result + [current];
  }

  function Flattened(ranges: seq<TimeRange>): seq<TimeRange> {
    var sorted := SortBy(ranges, StartOf);
    if sorted == [] then [] else FlattenFrom(sorted[0], sorted[1..])
  }

  /** A stored range names whole days, its last day included: [start, end + 24h). */
  predicate Shields(r: TimeRange, x: int) {
    r.start <= x < r.end + DAY
  }

  ghost predicate Shielded(rs: seq<TimeRange>, x: int) {
    exists i :: 0 <= i < |rs| && Shields(rs[i], x)
  }

  lemma ShieldedCons(r: TimeRange, rs: seq<TimeRange>, x: int)
    ensures Shielded([r] + rs, x) <==> Shields(r, x) || Shielded(rs, x)
  {
    if Shields(r, x) {
      assert ([r] + rs)[0] == r;
    } else if Shielded(rs, x) {
      var i :| 0 <= i < |rs| && Shields(rs[i], x);
      assert ([r] + rs)[i + 1] == rs[i];
    }
  }

  lemma ShieldedSplit(rs: seq<TimeRange>, x: int)
    requires rs != []
    ensures Shielded(rs, x) <==> Shields(rs[0], x) || Shielded(rs[1..], x)
  {
    assert rs == [rs[0]] + rs[1..];
    ShieldedCons(rs[0], rs[1..], x);
  }

  /** `current` followed by `rest` is in start order and no range is inverted. */
  ghost predicate Ordered(current: TimeRange, rest: seq<TimeRange>) {
    && current.start <= current.end
    && Valid(rest) && SortedBy(rest, StartOf)
    && forall i :: 0 <= i < |rest| ==> current.start <= rest[i].start
  }

  lemma OrderedTail(current: TimeRange, rest: seq<TimeRange>)
    requires rest != [] && Ordered(current, rest)
    ensures Ordered(rest[0], rest[1..])
    ensures Ordered(TimeRange(current.start, rest[0].end), rest[1..])
  {
  }

  lemma {:induction false} FlattenValid(current: TimeRange, rest: seq<TimeRange>)
    requires Ordered(current, rest)
    ensures Valid(FlattenFrom(current, rest))
    ensures forall i :: 0 <= i < |FlattenFrom(current, rest)| ==> current.start <= FlattenFrom(current, rest)[i].start
    decreases |rest|
  {
    if rest != [] {
      OrderedTail(current, rest);
      if current.Intersects(rest[0]) {
        FlattenValid(TimeRange(current.start, rest[0].end), rest[1..]);
      } else {
        FlattenValid(rest[0], rest[1..]);
      }
    }
  }

  /** Flattening never shields an instant that no input range shields. */
  lemma {:induction false} FlattenAddsNothing(current: TimeRange, rest: seq<TimeRange>, x: int)
    requires Ordered(current, rest)
    requires Shielded(FlattenFrom(current, rest), x)
    ensures Shields(current, x) || Shielded(rest, x)
    decreases |rest|
  {
    if rest != [] {
      OrderedTail(current, rest);
      ShieldedSplit(rest, x);
      if current.Intersects(rest[0]) {
        FlattenAddsNothing(TimeRange(current.start, rest[0].end), rest[1..], x);
      } else {
        ShieldedCons(current, FlattenFrom(rest[0], rest[1..]), x);
        if !Shields(current, x) {
          FlattenAddsNothing(rest[0], rest[1..], x);
        }
      }
    }
  }

  // ----- When flattening loses nothing -----

  function Max(a: int, b: int): int { if a >= b then a else b }

  /** How far the flattened ranges shield without a gap, given that everything below `reach`
      is shielded by ranges already emitted. */
  function KeptReach(reach: int, current: TimeRange, rest: seq<TimeRange>): int
    decreases |rest|
  {
    if rest == [] then Max(reach, current.end + DAY)
    else if current.Intersects(rest[0]) then KeptReach(reach, TimeRange(current.start, rest[0].end), rest[1..])
    else
      var reach' := Max(reach, current.end + DAY);
      if rest[0].start <= reach' then KeptReach(reach', rest[0], rest[1..]) else reach'
  }

  /** The scan a caller can run on the sorted ranges: whenever a merge shortens the current range,
      the rest must reach as far as the end that is thrown away. */
  predicate LosslessScan(reach: int, current: TimeRange, rest: seq<TimeRange>)
    decreases |rest|
  {
    if rest == [] then true
    else if current.Intersects(rest[0]) then
      var merged := TimeRange(current.start, rest[0].end);
      && (current.end <= rest[0].end || current.end + DAY <= KeptReach(reach, merged, rest[1..]))
      && LosslessScan(reach, merged, rest[1..])
    else LosslessScan(Max(reach, current.end + DAY), rest[0], rest[1..])
  }

  predicate Lossless(ranges: seq<TimeRange>) {
    var sorted := SortBy(ranges, StartOf);
    sorted == [] || LosslessScan(sorted[0].start, sorted[0], sorted[1..])
  }

  /** `KeptReach` is the first instant that the flattened ranges do not shield. */
  lemma {:induction false} KeptReachExact(reach: int, current: TimeRange, rest: seq<TimeRange>)
    requires Ordered(current, rest)
    ensures var r := KeptReach(reach, current, rest);
            && reach <= r && current.start < r
            && !Shielded(FlattenFrom(current, rest), r)
            && forall x :: current.start <= x < r ==> x < reach || Shielded(FlattenFrom(current, rest), x)
    decreases |rest|
  {
    var r := KeptReach(reach, current, rest);
    var out := FlattenFrom(current, rest);
    if rest == [] {
      forall x | current.start <= x < r ensures x < reach || Shielded(out, x) {
        assert x < reach || Shields(out[0], x);
      }
    } else {
      OrderedTail(current, rest);
      if current.Intersects(rest[0]) {
        KeptReachExact(reach, TimeRange(current.start, rest[0].end), rest[1..]);
      } else {
        var reach' := Max(reach, current.end + DAY);
        var later := FlattenFrom(rest[0], rest[1..]);
        KeptReachExact(reach', rest[0], rest[1..]);
        FlattenValid(rest[0], rest[1..]);
        ShieldedCons(current, later, r);
        forall x | current.start <= x < r ensures x < reach || Shielded(out, x) {
          ShieldedCons(current, later, x);
        }
      }
    }
  }

  /** Nothing at or above `reach` that `current` or `rest` shields is lost. */
  ghost predicate KeepsAll(reach: int, current: TimeRange, rest: seq<TimeRange>) {
    forall x :: (Shields(current, x) || Shielded(rest, x)) ==> x < reach || Shielded(FlattenFrom(current, rest), x)
  }

  lemma {:induction false} ScanExact(reach: int, current: TimeRange, rest: seq<TimeRange>)
    requires Ordered(current, rest)
    ensures KeepsAll(reach, current, rest) <==> LosslessScan(reach, current, rest)
    decreases |rest|
  {
    if rest == [] {
      assert FlattenFrom(current, rest)[0] == current;
    } else {
      OrderedTail(current, rest);
      if current.Intersects(rest[0]) {
        ScanExact(reach, TimeRange(current.start, rest[0].end), rest[1..]);
        MergeStepExact(reach, current, rest);
      } else {
        ScanExact(Max(reach, current.end + DAY), rest[0], rest[1..]);
        EmitStepExact(reach, current, rest);
      }
    }
  }

  lemma MergeStepExact(reach: int, current: TimeRange, rest: seq<TimeRange>)
    requires rest != [] && Ordered(current, rest) && current.Intersects(rest[0])
    ensures var merged := TimeRange(current.start, rest[0].end);
            KeepsAll(reach, current, rest) <==>
            && (current.end <= rest[0].end || current.end + DAY <= KeptReach(reach, merged, rest[1..]))
            && KeepsAll(reach, merged, rest[1..])
  {
    var merged := TimeRange(current.start, rest[0].end);
    var r := KeptReach(reach, merged, rest[1..]);
    OrderedTail(current, rest);
    KeptReachExact(reach, merged, rest[1..]);
    forall x
      ensures Shields(current, x) || Shielded(rest, x) <==>
              Shields(merged, x) || Shielded(rest[1..], x) || rest[0].end + DAY <= x < current.end + DAY
    {
      ShieldedSplit(rest, x);
    }
    if r < current.end + DAY {
      assert Shields(current, r) && !Shielded(FlattenFrom(current, rest), r);
    }
  }

  lemma EmitStepExact(reach: int, current: TimeRange, rest: seq<TimeRange>)
    requires rest != [] && Ordered(current, rest) && !current.Intersects(rest[0])
    ensures KeepsAll(reach, current, rest) <==> KeepsAll(Max(reach, current.end + DAY), rest[0], rest[1..])
  {
    var later := FlattenFrom(rest[0], rest[1..]);
    forall x
      ensures Shielded(rest, x) <==> Shields(rest[0], x) || Shielded(rest[1..], x)
      ensures Shielded(FlattenFrom(current, rest), x) <==> Shields(current, x) || Shielded(later, x)
      ensures Shielded(rest, x) ==> current.start <= x
    {
      ShieldedSplit(rest, x);
      ShieldedCons(current, later, x);
    }
  }

  lemma SortedOrdered(ranges: seq<TimeRange>)
    requires Valid(ranges)
    ensures var sorted := SortBy(ranges, StartOf);
            && (forall r :: r in sorted <==> r in ranges)
            && (sorted != [] ==> Ordered(sorted[0], sorted[1..]))
  {
    var sorted := SortBy(ranges, StartOf);
    SortBySound(ranges, StartOf);
    forall i | 0 <= i < |sorted| ensures sorted[i].start <= sorted[i].end {
      assert sorted[i] in ranges;
    }
  }

  /** Flattening keeps every red day exactly when the scan succeeds. */
  lemma FlattenLosslessIff(ranges: seq<TimeRange>)
    requires Valid(ranges)
    ensures (forall x :: Shielded(ranges, x) <==> Shielded(Flattened(ranges), x)) <==> Lossless(ranges)
    ensures forall x :: Shielded(Flattened(ranges), x) ==> Shielded(ranges, x)
    ensures Valid(Flattened(ranges))
  {
    var sorted := SortBy(ranges, StartOf);
    SortedOrdered(ranges);
    forall x ensures Shielded(ranges, x) <==> Shielded(sorted, x) {
      SameShields(ranges, sorted, x);
      SameShields(sorted, ranges, x);
    }
    if sorted != [] {
      var first, rest := sorted[0], sorted[1..];
      FlattenValid(first, rest);
      forall x
        ensures Shielded(sorted, x) <==> Shields(first, x) || Shielded(rest, x)
        ensures Shielded(sorted, x) ==> first.start <= x
        ensures Shielded(FlattenFrom(first, rest), x) ==> Shielded(sorted, x)
      {
        ShieldedSplit(sorted, x);
        if Shielded(FlattenFrom(first, rest), x) {
          FlattenAddsNothing(first, rest, x);
        }
      }
      ScanExact(first.start, first, rest);
    }
  }

  lemma SameShields(a: seq<TimeRange>, b: seq<TimeRange>, x: int)
    requires forall r :: r in a ==> r in b
    ensures Shielded(a, x) ==> Shielded(b, x)
  {
    if Shielded(a, x) {
      var i :| 0 <= i < |a| && Shields(a[i], x);
      assert a[i] in b;
    }
  }

  /** Ends that never go down in start order are enough. */
  lemma {:induction false} AscendingEndsLossless(reach: int, current: TimeRange, rest: seq<TimeRange>)
    requires forall i :: 0 <= i < |rest| ==> current.end <= rest[i].end
    requires forall i, j :: 0 <= i < j < |rest| ==> rest[i].end <= rest[j].end
    ensures LosslessScan(reach, current, rest)
    decreases |rest|
  {
    if rest != [] {
      AscendingEndsLossless(reach, TimeRange(current.start, rest[0].end), rest[1..]);
      AscendingEndsLossless(Max(reach, current.end + DAY), rest[0], rest[1..]);
    }
  }

  /** A range inside an earlier one cuts the earlier one short: days 13 to 30 are forgotten. */
  lemma NestedRangeLosesDays()
    ensures var rs := [TimeRange(10 * DAY, 30 * DAY), TimeRange(11 * DAY, 12 * DAY)];
            && Valid(rs) && !Lossless(rs)
            && Flattened(rs) == [TimeRange(10 * DAY, 12 * DAY)]
            && Shielded(rs, 20 * DAY) && !Shielded(Flattened(rs), 20 * DAY)
  {
    var a, b := TimeRange(10 * DAY, 30 * DAY), TimeRange(11 * DAY, 12 * DAY);
    var rs := [a, b];
    assert rs[1..] == [b] && [b][1..] == [];
    assert SortBy([b], StartOf) == [b];
    assert SortBy(rs, StartOf) == rs;
    assert FlattenFrom(TimeRange(10 * DAY, 12 * DAY), []) == [TimeRange(10 * DAY, 12 * DAY)];
    assert Shields(rs[0], 20 * DAY);
  }
}
