/** The three file-grouping strategies of the command line tool. */
module FileGrouping {
  import opened Sorting

  datatype File = File(id: int, size: int, minTs: int, maxTs: int)

  function SizeOf(f: File): int { f.size }
  function MinTsOf(f: File): int { f.minTs }

  function Concat(groups: seq<seq<File>>): seq<File> {
    if groups == [] then [] else Concat(groups[..|groups| - 1]) + groups[|groups| - 1]
  }

  function Sum(files: seq<File>): int {
    if files == [] then 0 else Sum(files[..|files| - 1]) + files[|files| - 1].size
  }

  // ----- Splitting a sorted list by size -----

  predicate Fits(group: seq<File>, limit: int) {
    |group| == 1 || (group != [] && Sum(group) <= limit)
  }

  /** A cut of `files` into consecutive groups that are singletons or fit the limit. */
  ghost predicate ValidCut(groups: seq<seq<File>>, files: seq<File>, limit: int) {
    Concat(groups) == files && forall k :: 0 <= k < |groups| ==> Fits(groups[k], limit)
  }

  /** No group could have taken the first file of the next one. */
  ghost predicate Maximal(groups: seq<seq<File>>, limit: int) {
    forall k :: 0 <= k < |groups| - 1 ==> FullBefore(groups[k], groups, k + 1, limit)
  }

  ghost predicate FullBefore(g: seq<File>, groups: seq<seq<File>>, next: int, limit: int)
    requires 0 <= next < |groups|
  {
    groups[next] != [] && Sum(g) + groups[next][0].size > limit
  }

  ghost predicate SplitInv(groups: seq<seq<File>>, current: seq<File>, done: seq<File>, limit: int) {
    && Concat(groups) + current == done
    && (forall k :: 0 <= k < |groups| ==> Fits(groups[k], limit))
    && (current != [] ==> Fits(current, limit) && Maximal(groups + [current], limit))
    && (current == [] ==> groups == [])
  }

  /** The loop shared by the size and time strategies, after their sort. */
  method SplitBySize(files: seq<File>, limit: int) returns (groups: seq<seq<File>>)
    ensures ValidCut(groups, files, limit)
    ensures Maximal(groups, limit)
  {
    groups := [];
    var current: seq<File>, size := [], 0;
    for i := 0 to |files|
      invariant SplitInv(groups, current, files[..i], limit)
      invariant size == Sum(current)
    {
      var file := files[i];
      assert files[..i + 1] == files[..i] + [file];
      assert (current + [file])[..|current|] == current;
      if current != [] && size + file.size > limit {
        CloseGroup(groups, current, files[..i], file, limit);
        groups := groups + [current];
        current, size := [], 0;
        assert current + [file] == [file];
      } else {
        ExtendGroup(groups, current, files[..i], file, limit);
      }
      size := size + file.size;
      current := current + [file];
    }
    assert files[..|files|] == files;
    if current != [] {
      ConcatSnoc(groups, current);
      groups := groups + [current];
    }
  }

  lemma CloseGroup(groups: seq<seq<File>>, current: seq<File>, done: seq<File>, file: File, limit: int)
    requires SplitInv(groups, current, done, limit) && current != [] && Sum(current) + file.size > limit
    ensures SplitInv(groups + [current], [file], done + [file], limit)
    ensures Sum([file]) == file.size
  {
    ConcatSnoc(groups, current);
    MaximalSnoc(groups, current, [file], limit);
    assert [file][..0] == [];
  }

  lemma ExtendGroup(groups: seq<seq<File>>, current: seq<File>, done: seq<File>, file: File, limit: int)
    requires SplitInv(groups, current, done, limit) && (current == [] || Sum(current) + file.size <= limit)
    ensures SplitInv(groups, current + [file], done + [file], limit)
  {
    assert (current + [file])[..|current|] == current;
    GrowLast(groups, current, file, limit);
    assert Concat(groups) + (current + [file]) == done + [file];
  }

  lemma ConcatSnoc(groups: seq<seq<File>>, g: seq<File>)
    ensures Concat(groups + [g]) == Concat(groups) + g
  {
    assert (groups + [g])[..|groups|] == groups;
  }

  lemma MaximalSnoc(groups: seq<seq<File>>, g: seq<File>, next: seq<File>, limit: int)
    requires Maximal(groups + [g], limit) && next != [] && Sum(g) + next[0].size > limit
    ensures Maximal(groups + [g] + [next], limit)
  {
    var before: seq<seq<File>> := groups + [g];
    var after: seq<seq<File>> := before + [next];
    forall k | 0 <= k < |after| - 1 ensures FullBefore(after[k], after, k + 1, limit) {
      assert after[k] == before[k];
      if k < |groups| {
        assert FullBefore(before[k], before, k + 1, limit);
      }
    }
  }

  /** Growing the last group at its end keeps maximality: the first file stays. */
  lemma GrowLast(groups: seq<seq<File>>, g: seq<File>, file: File, limit: int)
    requires g != [] ==> Maximal(groups + [g], limit)
    requires g == [] ==> groups == [] || Maximal(groups + [[file]], limit)
    ensures Maximal(groups + [g + [file]], limit)
  {
    var after: seq<seq<File>> := groups + [g + [file]];
    forall k | 0 <= k < |after| - 1 ensures FullBefore(after[k], after, k + 1, limit) {
      var before: seq<seq<File>> := groups + [if g == [] then [file] else g];
      assert after[k] == before[k];
      if k + 1 < |groups| { assert after[k + 1] == before[k + 1]; }
      assert FullBefore(before[k], before, k + 1, limit);
    }
  }

  // ----- Greedy splitting uses the fewest groups -----

  ghost predicate NonNegative(files: seq<File>) {
    forall i :: 0 <= i < |files| ==> files[i].size >= 0
  }

  lemma {:induction false} SumConcat(a: seq<File>, b: seq<File>)
    ensures Sum(a + b) == Sum(a) + Sum(b)
    decreases |b|
  {
    if b == [] {
      assert a + b == a;
    } else {
      assert (a + b)[..|a + b| - 1] == a + b[..|b| - 1];
      SumConcat(a, b[..|b| - 1]);
    }
  }

  lemma {:induction false} SumNonNegative(files: seq<File>)
    requires NonNegative(files)
    ensures Sum(files) >= 0
  {
    if files != [] {
      SumNonNegative(files[..|files| - 1]);
    }
  }

  /** With non-negative sizes a part weighs no more than the whole. */
  lemma SumPart(files: seq<File>, a: int, b: int, c: int, d: int)
    requires NonNegative(files) && 0 <= a <= b <= c <= d <= |files|
    ensures Sum(files[b..c]) <= Sum(files[a..d])
  {
    assert files[a..d] == files[a..b] + files[b..c] + files[c..d];
    SumConcat(files[a..b] + files[b..c], files[c..d]);
    SumConcat(files[a..b], files[b..c]);
    SumNonNegative(files[a..b]);
    SumNonNegative(files[c..d]);
  }

  /** Where the `k`-th group starts. */
  ghost function Start(groups: seq<seq<File>>, k: nat): nat
    requires k <= |groups|
  {
    |Concat(groups[..k])|
  }

  lemma {:induction false} GroupSlice(groups: seq<seq<File>>, k: nat)
    requires k < |groups|
    ensures Start(groups, k + 1) == Start(groups, k) + |groups[k]| <= |Concat(groups)|
    ensures Concat(groups)[Start(groups, k)..Start(groups, k + 1)] == groups[k]
    decreases |groups|
  {
    assert groups[..k + 1][..k] == groups[..k];
    if k + 1 == |groups| {
      assert groups[..k + 1] == groups;
    } else {
      var front := groups[..|groups| - 1];
      GroupSlice(front, k);
      assert front[..k] == groups[..k] && front[..k + 1] == groups[..k + 1];
    }
  }

  /** Greedy stays ahead: its first `k` groups hold at least as many files as the first `k` groups
      of any valid cut. */
  lemma {:induction false} GreedyAhead(greedy: seq<seq<File>>, cut: seq<seq<File>>, files: seq<File>, limit: int,
                                       k: nat)
    requires NonNegative(files)
    requires ValidCut(greedy, files, limit) && Maximal(greedy, limit) && ValidCut(cut, files, limit)
    requires k <= |greedy| && k <= |cut|
    ensures Start(cut, k) <= Start(greedy, k)
  {
    if k > 0 {
      GreedyAhead(greedy, cut, files, limit, k - 1);
      GroupSlice(greedy, k - 1);
      GroupSlice(cut, k - 1);
      GreedyFull(greedy, files, limit, k);
      assert Fits(cut[k - 1], limit) && Fits(greedy[k - 1], limit);
      AheadStep(files, limit, Start(cut, k - 1), Start(greedy, k - 1), Start(greedy, k), Start(cut, k));
    }
  }

  /** The `k`-th greedy group either ends the list or has no room for the next file. */
  lemma GreedyFull(greedy: seq<seq<File>>, files: seq<File>, limit: int, k: nat)
    requires ValidCut(greedy, files, limit) && Maximal(greedy, limit) && 0 < k <= |greedy|
    ensures Start(greedy, k) < |files| ==> Sum(greedy[k - 1]) + files[Start(greedy, k)].size > limit
  {
    GroupSlice(greedy, k - 1);
    if k == |greedy| {
      assert greedy[..k] == greedy;
    } else {
      GroupSlice(greedy, k);
      assert FullBefore(greedy[k - 1], greedy, k, limit);
    }
  }

  lemma AheadStep(files: seq<File>, limit: int, c0: int, g0: int, g1: int, c1: int)
    requires NonNegative(files) && 0 <= c0 <= g0 < g1 <= |files| && c0 <= c1 <= |files|
    requires Fits(files[c0..c1], limit)
    requires g1 < |files| ==> Sum(files[g0..g1]) + files[g1].size > limit
    ensures c1 <= g1
  {
    if g1 < c1 {
      Overfull(files, c0, g0, g1, c1, limit);
    }
  }

  /** A group that reaches past a full greedy group is too heavy. */
  lemma Overfull(files: seq<File>, c0: int, g0: int, g1: int, c1: int, limit: int)
    requires NonNegative(files) && 0 <= c0 <= g0 < g1 < c1 <= |files|
    requires Sum(files[g0..g1]) + files[g1].size > limit
    ensures !Fits(files[c0..c1], limit)
  {
    assert files[g0..g1 + 1] == files[g0..g1] + [files[g1]];
    assert (files[g0..g1] + [files[g1]])[..g1 - g0] == files[g0..g1];
    SumPart(files, c0, g0, g1 + 1, c1);
  }

  /** No contiguous cut into singletons or fitting groups uses fewer groups than the greedy one. */
  lemma GreedyOptimal(greedy: seq<seq<File>>, cut: seq<seq<File>>, files: seq<File>, limit: int)
    requires NonNegative(files)
    requires ValidCut(greedy, files, limit) && Maximal(greedy, limit) && ValidCut(cut, files, limit)
    ensures |greedy| <= |cut|
  {
    if |cut| < |greedy| {
      GreedyAhead(greedy, cut, files, limit, |cut|);
      assert cut[..|cut|] == cut;
      GroupSlice(greedy, |cut|);
      assert false;
    }
  }

  /** `group_by_file_size` and `group_by_file_time`: sort, then split. */
  method GroupByFileSize(files: seq<File>, limit: int) returns (groups: seq<seq<File>>)
    ensures ValidCut(groups, SortBy(files, SizeOf), limit) && Maximal(groups, limit)
    ensures multiset(Concat(groups)) == multiset(files)
    ensures forall i, j :: 0 <= i < j < |Concat(groups)| ==> Concat(groups)[i].size <= Concat(groups)[j].size
  {
    groups := SplitBySize(SortBy(files, SizeOf), limit);
    SortBySound(files, SizeOf);
    AscendingSizes(Concat(groups));
  }

  lemma AscendingSizes(files: seq<File>)
    requires SortedBy(files, SizeOf)
    ensures forall i, j :: 0 <= i < j < |files| ==> files[i].size <= files[j].size
  {
    forall i, j | 0 <= i < j < |files| ensures files[i].size <= files[j].size {
      assert SizeOf(files[i]) <= SizeOf(files[j]);
    }
  }

  lemma AscendingStarts(files: seq<File>)
    requires SortedBy(files, MinTsOf)
    ensures forall i, j :: 0 <= i < j < |files| ==> files[i].minTs <= files[j].minTs
  {
    forall i, j | 0 <= i < j < |files| ensures files[i].minTs <= files[j].minTs {
      assert MinTsOf(files[i]) <= MinTsOf(files[j]);
    }
  }

  method GroupByFileTime(files: seq<File>, limit: int) returns (groups: seq<seq<File>>)
    ensures ValidCut(groups, SortBy(files, MinTsOf), limit) && Maximal(groups, limit)
    ensures multiset(Concat(groups)) == multiset(files)
    ensures forall i, j :: 0 <= i < j < |Concat(groups)| ==> Concat(groups)[i].minTs <= Concat(groups)[j].minTs
  {
    groups := SplitBySize(SortBy(files, MinTsOf), limit);
    SortBySound(files, MinTsOf);
    AscendingStarts(Concat(groups));
  }

  // ----- Partitioning into chains of non-overlapping files -----

  predicate Has(f: File, x: int) {
    f.minTs <= x < f.maxTs
  }

  predicate Overlap(a: File, b: File) {
    a.minTs < b.maxTs && b.minTs < a.maxTs
  }

  /** No two files of the class overlap. */
  ghost predicate NonOverlapping(c: seq<File>) {
    forall i, j :: 0 <= i < j < |c| ==> !Overlap(c[i], c[j])
  }

  /** Each file of the chain ends before every later one starts. */
  ghost predicate IsChain(c: seq<File>) {
    c != [] && (forall i, j :: 0 <= i < j < |c| ==> c[i].maxTs <= c[j].minTs)
  }

  /** How many files are open at instant `x`. */
  function Depth(files: seq<File>, x: int): nat {
    if files == [] then 0 else Depth(files[..|files| - 1], x) + (if Has(files[|files| - 1], x) then 1 else 0)
  }

  function TotalDepth(classes: seq<seq<File>>, x: int): nat {
    if classes == [] then 0 else TotalDepth(classes[..|classes| - 1], x) + Depth(classes[|classes| - 1], x)
  }

  /** Whether the last file of the chain has ended when `file` starts. */
  predicate Free(chain: seq<File>, file: File) {
    chain != [] && file.minTs >= chain[|chain| - 1].maxTs
  }

  /** The first free chain, or the number of chains. */
  function FirstFree(chains: seq<seq<File>>, file: File): (k: nat)
    ensures k <= |chains| && (k < |chains| ==> Free(chains[k], file))
    ensures forall i :: 0 <= i < k ==> !Free(chains[i], file)
  {
    if chains == [] then 0
    else
      var n := |chains| - 1;
      var k := FirstFree(chains[..n], file);
      if k < n || Free(chains[n], file) then k else n + 1
  }

  /** The chains after the first `i` files. */
  function ChainsAt(files: seq<File>, i: nat): seq<seq<File>>
    requires i <= |files|
  {
    if i == 0 then []
    else
      var before := ChainsAt(files, i - 1);
      Place(before, FirstFree(before, files[i - 1]), files[i - 1])
  }

  function Place(chains: seq<seq<File>>, k: nat, file: File): seq<seq<File>>
    requires k <= |chains|
  {
    if k < |chains| then chains[k := chains[k] + [file]] else chains + [[file]]
  }

  /** The search for a free chain. */
  method FirstFit(chains: seq<seq<File>>, file: File) returns (k: nat)
    ensures k == FirstFree(chains, file)
  {
    k := 0;
    while k < |chains| && !Free(chains[k], file)
      invariant k <= |chains|
      invariant forall i :: 0 <= i < k ==> !Free(chains[i], file)
    {
      k := k + 1;
    }
  }

  ghost predicate Started(f: File, t: int) {
    f.minTs <= t
  }

  /** Every chain is a chain in start order, and all its files have started by time `t`. */
  ghost predicate ChainsOrdered(chains: seq<seq<File>>, t: int) {
    forall i :: 0 <= i < |chains| ==> ChainOrdered(chains[i], t)
  }

  ghost predicate ChainOrdered(c: seq<File>, t: int) {
    IsChain(c) && SortedBy(c, MinTsOf) && forall j :: 0 <= j < |c| ==> Started(c[j], t)
  }

  /** The chains hold exactly the files seen so far. */
  ghost predicate ChainsHold(chains: seq<seq<File>>, done: seq<File>) {
    && multiset(Concat(chains)) == multiset(done)
    && (forall x :: TotalDepth(chains, x) == Depth(done, x))
  }

  ghost predicate ChainInv(chains: seq<seq<File>>, done: seq<File>, t: int) {
    ChainsOrdered(chains, t) && ChainsHold(chains, done)
  }

  /** At instant `x` every chain is busy. */
  ghost predicate BusyAt(done: seq<File>, chains: seq<seq<File>>, x: int) {
    Depth(done, x) >= |chains|
  }

  lemma DepthSnoc(c: seq<File>, f: File, x: int)
    ensures Depth(c + [f], x) == Depth(c, x) + (if Has(f, x) then 1 else 0)
  {
    assert (c + [f])[..|c|] == c;
  }

  lemma TotalDepthSnoc(cs: seq<seq<File>>, c: seq<File>, x: int)
    ensures TotalDepth(cs + [c], x) == TotalDepth(cs, x) + Depth(c, x)
  {
    assert (cs + [c])[..|cs|] == cs;
  }

  lemma {:induction false} ConcatUpdate(chains: seq<seq<File>>, k: nat, f: File)
    requires k < |chains|
    ensures multiset(Concat(chains[k := chains[k] + [f]])) == multiset(Concat(chains)) + multiset{f}
    ensures forall x :: TotalDepth(chains[k := chains[k] + [f]], x) ==
                        TotalDepth(chains, x) + (if Has(f, x) then 1 else 0)
    decreases |chains|
  {
    var after := chains[k := chains[k] + [f]];
    var front, last := chains[..|chains| - 1], chains[|chains| - 1];
    if k == |chains| - 1 {
      assert after[..k] == front;
      forall x ensures TotalDepth(after, x) == TotalDepth(chains, x) + (if Has(f, x) then 1 else 0) {
        DepthSnoc(last, f, x);
      }
    } else {
      ConcatUpdate(front, k, f);
      assert after[..|chains| - 1] == front[k := front[k] + [f]];
    }
  }

  lemma ExtendChain(c: seq<File>, f: File, t: int)
    requires ChainOrdered(c, t) && Free(c, f) && t <= f.minTs
    ensures ChainOrdered(c + [f], f.minTs)
  {
    assert Started(c[|c| - 1], t);
    forall i | 0 <= i < |c| ensures c[i].maxTs <= f.minTs && MinTsOf(c[i]) <= MinTsOf(f) {
      assert Started(c[i], t);
    }
  }

  lemma LaterOrdered(c: seq<File>, t: int, u: int)
    requires ChainOrdered(c, t) && t <= u
    ensures ChainOrdered(c, u)
  {
    forall j | 0 <= j < |c| ensures Started(c[j], u) {
      assert Started(c[j], t);
    }
  }

  lemma AddToChain(chains: seq<seq<File>>, done: seq<File>, t: int, k: nat, f: File)
    requires ChainInv(chains, done, t) && k < |chains| && t <= f.minTs
    requires Free(chains[k], f)
    ensures ChainInv(chains[k := chains[k] + [f]], done + [f], f.minTs)
  {
    var after := chains[k := chains[k] + [f]];
    ConcatUpdate(chains, k, f);
    forall x ensures TotalDepth(after, x) == Depth(done + [f], x) {
      DepthSnoc(done, f, x);
    }
    forall i | 0 <= i < |after| ensures ChainOrdered(after[i], f.minTs) {
      assert ChainOrdered(chains[i], t);
      if i == k { ExtendChain(chains[k], f, t); } else { LaterOrdered(chains[i], t, f.minTs); }
    }
  }

  lemma NewChainHolds(chains: seq<seq<File>>, done: seq<File>, f: File)
    requires ChainsHold(chains, done)
    ensures ChainsHold(chains + [[f]], done + [f])
  {
    ConcatSnoc(chains, [f]);
    forall x ensures TotalDepth(chains + [[f]], x) == Depth(done + [f], x) {
      DepthSnoc(done, f, x);
      DepthSnoc([], f, x);
      TotalDepthSnoc(chains, [f], x);
      assert [] + [f] == [f];
    }
  }

  lemma NewChain(chains: seq<seq<File>>, done: seq<File>, t: int, f: File)
    requires ChainInv(chains, done, t) && t <= f.minTs
    ensures ChainInv(chains + [[f]], done + [f], f.minTs)
  {
    var after := chains + [[f]];
    NewChainHolds(chains, done, f);
    forall i | 0 <= i < |after| ensures ChainOrdered(after[i], f.minTs) {
      if i < |chains| {
        assert ChainOrdered(chains[i], t);
        LaterOrdered(chains[i], t, f.minTs);
      }
    }
  }

  /** A new chain is opened only when all chains are busy. */
  lemma NewChainBusy(chains: seq<seq<File>>, done: seq<File>, t: int, f: File)
    requires ChainInv(chains, done, t) && t <= f.minTs < f.maxTs
    requires forall i :: 0 <= i < |chains| ==> !Free(chains[i], f)
    ensures BusyAt(done + [f], chains + [[f]], f.minTs)
  {
    forall i | 0 <= i < |chains| ensures chains[i] != [] && Has(chains[i][|chains[i]| - 1], f.minTs) {
      assert IsChain(chains[i]) && !Free(chains[i], f);
      assert Started(chains[i][|chains[i]| - 1], t);
    }
    AllBusy(chains, f.minTs);
    DepthSnoc(done, f, f.minTs);
  }

  lemma {:induction false} AllBusy(chains: seq<seq<File>>, x: int)
    requires forall i :: 0 <= i < |chains| ==> chains[i] != [] && Has(chains[i][|chains[i]| - 1], x)
    ensures TotalDepth(chains, x) >= |chains|
  {
    if chains != [] {
      AllBusy(chains[..|chains| - 1], x);
    }
  }

  lemma {:induction false} NonOverlappingDepth(c: seq<File>, x: int)
    requires NonOverlapping(c)
    ensures Depth(c, x) <= 1
    ensures Depth(c, x) == 1 ==> exists i :: 0 <= i < |c| && Has(c[i], x)
  {
    if c != [] {
      NonOverlappingDepth(c[..|c| - 1], x);
    }
  }

  lemma {:induction false} DepthAtMostClasses(classes: seq<seq<File>>, x: int)
    requires forall i :: 0 <= i < |classes| ==> NonOverlapping(classes[i])
    ensures TotalDepth(classes, x) <= |classes|
  {
    if classes != [] {
      DepthAtMostClasses(classes[..|classes| - 1], x);
      NonOverlappingDepth(classes[|classes| - 1], x);
    }
  }

  lemma ChainNonOverlapping(c: seq<File>)
    requires IsChain(c)
    ensures NonOverlapping(c)
  {
  }

  lemma DepthAtMostChains(chains: seq<seq<File>>, files: seq<File>, t: int)
    requires ChainInv(chains, files, t)
    ensures forall x :: Depth(files, x) <= |chains|
  {
    forall i | 0 <= i < |chains| ensures NonOverlapping(chains[i]) {
      ChainNonOverlapping(chains[i]);
    }
    forall x ensures Depth(files, x) <= |chains| {
      DepthAtMostClasses(chains, x);
    }
  }

  /** Every file spans more than one instant. */
  ghost predicate NoInstants(files: seq<File>) {
    forall i :: 0 <= i < |files| ==> files[i].minTs < files[i].maxTs
  }

  ghost predicate Placed(files: seq<File>, i: int, chains: seq<seq<File>>, t: int, busiest: int)
    requires 0 <= i <= |files|
  {
    && ChainInv(chains, files[..i], t)
    && (i < |files| ==> t <= files[i].minTs)
    && (i == 0 ==> chains == [])
    && (NoInstants(files) ==> BusyAt(files[..i], chains, busiest))
  }

  lemma PlaceStep(files: seq<File>, i: nat, chains: seq<seq<File>>, t: int, busiest: int, k: nat)
    requires i < |files| && SortedBy(files, MinTsOf)
    requires Placed(files, i, chains, t, busiest)
    requires k <= |chains| && (k < |chains| ==> Free(chains[k], files[i]))
    requires forall j :: 0 <= j < k ==> !Free(chains[j], files[i])
    ensures Placed(files, i + 1, Place(chains, k, files[i]), files[i].minTs,
                   if k < |chains| then busiest else files[i].minTs)
  {
    var file := files[i];
    assert files[..i + 1] == files[..i] + [file];
    if i + 1 < |files| { assert MinTsOf(files[i]) <= MinTsOf(files[i + 1]); }
    if k < |chains| {
      AddToChain(chains, files[..i], t, k, file);
      DepthSnoc(files[..i], file, busiest);
    } else {
      NewChain(chains, files[..i], t, file);
      if NoInstants(files) { NewChainBusy(chains, files[..i], t, file); }
    }
  }

  /** Chains that hold exactly the files, as many as files are open at the busiest instant. */
  ghost predicate ChainPartition(files: seq<File>, chains: seq<seq<File>>) {
    && (forall i :: 0 <= i < |chains| ==> IsChain(chains[i]) && SortedBy(chains[i], MinTsOf))
    && multiset(Concat(chains)) == multiset(files)
    && (forall x :: Depth(files, x) <= |chains|)
    && (files == [] ==> chains == [])
    && (files != [] && NoInstants(files) ==> exists x :: Depth(files, x) == |chains|)
  }

  /** The chains after `i` files are as they should be, for some time and some busiest instant. */
  ghost predicate WellPlaced(files: seq<File>, i: nat)
    requires i <= |files|
  {
    exists t, busiest :: Placed(files, i, ChainsAt(files, i), t, busiest)
  }

  lemma NonePlaced(files: seq<File>)
    ensures WellPlaced(files, 0)
  {
    assert files[..0] == [];
    assert Placed(files, 0, ChainsAt(files, 0), if files == [] then 0 else files[0].minTs, 0);
  }

  lemma PlacedNext(files: seq<File>, i: nat)
    requires i < |files| && SortedBy(files, MinTsOf) && WellPlaced(files, i)
    ensures WellPlaced(files, i + 1)
  {
    var chains := ChainsAt(files, i);
    var t, busiest :| Placed(files, i, chains, t, busiest);
    var k := FirstFree(chains, files[i]);
    PlaceStep(files, i, chains, t, busiest, k);
    assert ChainsAt(files, i + 1) == Place(chains, k, files[i]);
    assert Placed(files, i + 1, ChainsAt(files, i + 1), files[i].minTs,
                  if k < |chains| then busiest else files[i].minTs);
  }

  lemma {:induction false} PlacedAt(files: seq<File>, i: nat)
    requires i <= |files| && SortedBy(files, MinTsOf)
    ensures WellPlaced(files, i)
  {
    if i == 0 {
      NonePlaced(files);
    } else {
      PlacedAt(files, i - 1);
      PlacedNext(files, i - 1);
    }
  }

  /** First-fit chains hold exactly the files, and each is a chain; for files that span more than an
      instant they are as many as files are open at the busiest instant. */
  lemma ChainsPartition(files: seq<File>)
    requires SortedBy(files, MinTsOf)
    ensures ChainPartition(files, ChainsAt(files, |files|))
  {
    PlacedAt(files, |files|);
    var chains := ChainsAt(files, |files|);
    var t, busiest :| Placed(files, |files|, chains, t, busiest);
    assert files[..|files|] == files;
    DepthAtMostChains(chains, files, t);
    assert NoInstants(files) ==> Depth(files, busiest) == |chains|;
  }

  // ----- First fit as a coloring -----

  /** Of two files in start order, the second may follow the first in a chain. */
  predicate Follows(files: seq<File>, j: nat, k: nat)
    requires j < k < |files|
  {
    files[j].maxTs <= files[k].minTs
  }

  /** Files of one color may follow each other; there are `n` colors. */
  ghost predicate ProperColoring(files: seq<File>, color: seq<nat>, n: nat) {
    && |color| == |files| && (forall j :: 0 <= j < |files| ==> color[j] < n)
    && forall j: nat, k: nat :: j < k < |files| && color[j] == color[k] ==> Follows(files, j, k)
  }

  /** No two of these files may follow each other. */
  ghost predicate Clique(files: seq<File>, clique: set<nat>) {
    && (forall j :: j in clique ==> j < |files|)
    && forall j: nat, k: nat :: j in clique && k in clique && j < k < |files| ==> !Follows(files, j, k)
  }

  /** The files of one color, in order. */
  function ColorClass(files: seq<File>, color: seq<nat>, c: nat): seq<File>
    requires |color| == |files|
  {
    if files == [] then []
    else
      var n := |files| - 1;
      ColorClass(files[..n], color[..n], c) + (if color[n] == c then [files[n]] else [])
  }

  /** The first `i` files are colored by their chains, and `lastOf` are the chains' last files. */
  ghost predicate Colored(files: seq<File>, i: int, chains: seq<seq<File>>, color: seq<nat>, lastOf: seq<nat>)
    requires 0 <= i <= |files|
  {
    && ProperColoring(files[..i], color, |chains|) && |lastOf| == |chains|
    && (forall j :: 0 <= j < i ==> j <= lastOf[color[j]])
    && (forall c :: 0 <= c < |chains| ==> ChainColored(files[..i], chains[c], color, lastOf[c], c))
  }

  ghost predicate ChainColored(done: seq<File>, chain: seq<File>, color: seq<nat>, last: nat, c: nat)
    requires |color| == |done|
  {
    && last < |done| && color[last] == c
    && chain == ColorClass(done, color, c) && chain != [] && chain[|chain| - 1] == done[last]
  }

  lemma ColorClassSnoc(done: seq<File>, color: seq<nat>, f: File, k: nat, c: nat)
    requires |color| == |done|
    ensures ColorClass(done + [f], color + [k], c) == ColorClass(done, color, c) + (if k == c then [f] else [])
  {
    assert (done + [f])[..|done|] == done && (color + [k])[..|color|] == color;
  }

  lemma {:induction false} ColorClassEmpty(done: seq<File>, color: seq<nat>, c: nat)
    requires |color| == |done| && forall j :: 0 <= j < |done| ==> color[j] < c
    ensures ColorClass(done, color, c) == []
  {
    if done != [] { ColorClassEmpty(done[..|done| - 1], color[..|done| - 1], c); }
  }

  /** The new file may follow every file of a free chain. */
  lemma FollowsFreeChain(files: seq<File>, i: nat, chains: seq<seq<File>>, color: seq<nat>, lastOf: seq<nat>, k: nat,
                         j: nat)
    requires i < |files| && SortedBy(files, MinTsOf) && Colored(files, i, chains, color, lastOf)
    requires k < |chains| && Free(chains[k], files[i]) && j < i && color[j] == k
    ensures files[j].maxTs <= files[i].minTs
  {
    var done, last := files[..i], lastOf[k];
    assert ChainColored(done, chains[k], color, last, k);
    if j < last {
      assert Follows(done, j, last);
      assert MinTsOf(files[last]) <= MinTsOf(files[i]);
    }
  }

  lemma ColorStepProper(files: seq<File>, i: nat, chains: seq<seq<File>>, color: seq<nat>, lastOf: seq<nat>, k: nat)
    requires i < |files| && SortedBy(files, MinTsOf) && Colored(files, i, chains, color, lastOf)
    requires k <= |chains| && (k < |chains| ==> Free(chains[k], files[i]))
    ensures ProperColoring(files[..i + 1], color + [k], |Place(chains, k, files[i])|)
  {
    var done, color' := files[..i + 1], color + [k];
    forall a: nat, b: nat | a < b < |done| && color'[a] == color'[b] ensures Follows(done, a, b) {
      if b < i {
        assert Follows(files[..i], a, b);
      } else if k < |chains| {
        FollowsFreeChain(files, i, chains, color, lastOf, k, a);
      }
    }
  }

  lemma ColorStep(files: seq<File>, i: nat, chains: seq<seq<File>>, color: seq<nat>, lastOf: seq<nat>, k: nat)
    requires i < |files| && SortedBy(files, MinTsOf) && Colored(files, i, chains, color, lastOf)
    requires k <= |chains| && (k < |chains| ==> Free(chains[k], files[i]))
    ensures Colored(files, i + 1, Place(chains, k, files[i]), color + [k],
                    if k < |chains| then lastOf[k := i] else lastOf + [i])
  {
    var chains', color' := Place(chains, k, files[i]), color + [k];
    var lastOf' := if k < |chains| then lastOf[k := i] else lastOf + [i];
    ColorStepProper(files, i, chains, color, lastOf, k);
    assert files[..i + 1] == files[..i] + [files[i]];
    forall c: nat | c < |chains'| ensures ChainColored(files[..i + 1], chains'[c], color', lastOf'[c], c) {
      ColorClassSnoc(files[..i], color, files[i], k, c);
      if c < |chains| {
        assert ChainColored(files[..i], chains[c], color, lastOf[c], c);
      } else {
        ColorClassEmpty(files[..i], color, c);
      }
    }
    forall j | 0 <= j < i + 1 ensures j <= lastOf'[color'[j]] {
      if j < i { assert j <= lastOf[color[j]]; }
    }
  }

  function Members(xs: seq<nat>): set<nat> {
    set x | x in xs
  }

  lemma {:induction false} DistinctCount(xs: seq<nat>)
    requires forall a, b :: 0 <= a < b < |xs| ==> xs[a] != xs[b]
    ensures |Members(xs)| == |xs|
  {
    if xs != [] {
      var front, last := xs[..|xs| - 1], xs[|xs| - 1];
      DistinctCount(front);
      assert xs == front + [last];
      assert last !in Members(front);
      assert Members(xs) == Members(front) + {last};
    }
  }

  /** All chains are busy when the new file starts. */
  lemma BusyLast(files: seq<File>, i: nat, chains: seq<seq<File>>, color: seq<nat>, lastOf: seq<nat>, c: nat)
    requires i < |files| && Colored(files, i, chains, color, lastOf)
    requires c < |chains| && !Free(chains[c], files[i])
    ensures lastOf[c] < i && color[lastOf[c]] == c && files[lastOf[c]].maxTs > files[i].minTs
  {
    assert ChainColored(files[..i], chains[c], color, lastOf[c], c);
    assert files[..i][lastOf[c]] == files[lastOf[c]];
  }

  /** When a new chain is opened, the last files of all chains and the new file form a clique. */
  lemma NewChainClique(files: seq<File>, i: nat, chains: seq<seq<File>>, color: seq<nat>, lastOf: seq<nat>)
    returns (clique: set<nat>)
    requires i < |files| && SortedBy(files, MinTsOf) && Colored(files, i, chains, color, lastOf)
    requires forall c :: 0 <= c < |chains| ==> !Free(chains[c], files[i])
    ensures Clique(files, clique) && |clique| == |chains| + 1
  {
    forall c: nat | c < |lastOf|
      ensures lastOf[c] < i && color[lastOf[c]] == c && files[lastOf[c]].maxTs > files[i].minTs
    {
      BusyLast(files, i, chains, color, lastOf, c);
    }
    assert |lastOf| == |chains|;
    clique := BusyClique(files, i, color, lastOf);
  }

  lemma BusyClique(files: seq<File>, i: nat, color: seq<nat>, lastOf: seq<nat>) returns (clique: set<nat>)
    requires i < |files| && SortedBy(files, MinTsOf) && |color| == i
    requires forall c :: 0 <= c < |lastOf| ==>
               lastOf[c] < i && color[lastOf[c]] == c && files[lastOf[c]].maxTs > files[i].minTs
    ensures Clique(files, clique) && |clique| == |lastOf| + 1
  {
    var lasts := Members(lastOf);
    DistinctCount(lastOf);
    assert i !in lasts;
    clique := lasts + {i};
    forall j: nat, k: nat | j in clique && k in clique && j < k < |files| ensures !Follows(files, j, k) {
      assert j in lasts && k <= i;
      var c :| 0 <= c < |lastOf| && lastOf[c] == j;
      assert MinTsOf(files[k]) <= MinTsOf(files[i]);
    }
  }

  lemma DifferentColors(clique: set<nat>, files: seq<File>, color: seq<nat>, n: nat, a: nat, b: nat)
    requires Clique(files, clique) && ProperColoring(files, color, n) && a in clique && b in clique && a != b
    ensures color[a] != color[b]
  {
    if a < b {
      assert !Follows(files, a, b);
    } else {
      assert !Follows(files, b, a);
    }
  }

  lemma {:induction false} ImageCount(clique: set<nat>, files: seq<File>, color: seq<nat>, n: nat)
    requires Clique(files, clique) && ProperColoring(files, color, n)
    ensures |clique| == |set j | j in clique && j < |color| :: color[j]|
    decreases |clique|
  {
    if clique != {} {
      var x :| x in clique;
      var rest := clique - {x};
      ImageCount(rest, files, color, n);
      var image := set j | j in clique && j < |color| :: color[j];
      var imageRest := set j | j in rest && j < |color| :: color[j];
      forall j | j in rest ensures color[j] != color[x] {
        DifferentColors(clique, files, color, n, j, x);
      }
      assert image == imageRest + {color[x]};
    }
  }

  lemma {:induction false} BoundedCount(s: set<nat>, n: nat)
    requires forall x :: x in s ==> x < n
    ensures |s| <= n
  {
    if n == 0 {
      assert s == {};
    } else {
      BoundedCount(s - {n - 1}, n - 1);
    }
  }

  /** Files that exclude each other need different colors. */
  lemma CliqueNeedsColors(files: seq<File>, clique: set<nat>, color: seq<nat>, n: nat)
    requires Clique(files, clique) && ProperColoring(files, color, n)
    ensures |clique| <= n
  {
    var image := set j | j in clique && j < |color| :: color[j];
    ImageCount(clique, files, color, n);
    BoundedCount(image, n);
  }

  lemma {:induction false} ColoredAt(files: seq<File>, i: nat) returns (color: seq<nat>, lastOf: seq<nat>)
    requires i <= |files| && SortedBy(files, MinTsOf)
    ensures Colored(files, i, ChainsAt(files, i), color, lastOf)
  {
    if i == 0 {
      color, lastOf := [], [];
    } else {
      var color0, lastOf0 := ColoredAt(files, i - 1);
      color, lastOf := ColoredNext(files, i - 1, color0, lastOf0);
    }
  }

  lemma ColoredNext(files: seq<File>, i: nat, color: seq<nat>, lastOf: seq<nat>)
    returns (color': seq<nat>, lastOf': seq<nat>)
    requires i < |files| && SortedBy(files, MinTsOf) && Colored(files, i, ChainsAt(files, i), color, lastOf)
    ensures Colored(files, i + 1, ChainsAt(files, i + 1), color', lastOf')
  {
    var chains := ChainsAt(files, i);
    var k := FirstFree(chains, files[i]);
    color', lastOf' := color + [k], if k < |chains| then lastOf[k := i] else lastOf + [i];
    ColorStep(files, i, chains, color, lastOf, k);
  }

  lemma {:induction false} CliqueAt(files: seq<File>, i: nat) returns (clique: set<nat>)
    requires i <= |files| && SortedBy(files, MinTsOf)
    ensures Clique(files, clique) && |clique| == |ChainsAt(files, i)|
  {
    if i == 0 {
      clique := {};
    } else {
      var chains := ChainsAt(files, i - 1);
      if FirstFree(chains, files[i - 1]) < |chains| {
        clique := CliqueAt(files, i - 1);
      } else {
        var color, lastOf := ColoredAt(files, i - 1);
        clique := NewChainClique(files, i - 1, chains, color, lastOf);
      }
    }
  }

  /** The chains are the classes of a proper coloring. */
  lemma ChainsAreColoring(files: seq<File>) returns (color: seq<nat>)
    requires SortedBy(files, MinTsOf)
    ensures ProperColoring(files, color, |ChainsAt(files, |files|)|)
    ensures var chains := ChainsAt(files, |files|);
            forall c :: 0 <= c < |chains| ==> chains[c] == ColorClass(files, color, c)
  {
    var lastOf;
    color, lastOf := ColoredAt(files, |files|);
    AllColored(files, ChainsAt(files, |files|), color, lastOf);
  }

  /** No way of putting the sorted files into chains uses fewer of them than first fit does, whatever
      the files' times are. */
  lemma ChainsAreOptimal(files: seq<File>, color: seq<nat>, n: nat)
    requires SortedBy(files, MinTsOf) && ProperColoring(files, color, n)
    ensures |ChainsAt(files, |files|)| <= n
  {
    var clique := CliqueAt(files, |files|);
    CliqueNeedsColors(files, clique, color, n);
  }

  /** First-fit chaining. */
  method ChainFiles(files: seq<File>) returns (chains: seq<seq<File>>)
    requires SortedBy(files, MinTsOf)
    ensures chains == ChainsAt(files, |files|) && ChainPartition(files, chains)
  {
    chains := [];
    for i := 0 to |files|
      invariant chains == ChainsAt(files, i)
    {
      var k := FirstFit(chains, files[i]);
      chains := Place(chains, k, files[i]);
    }
    ChainsPartition(files);
  }

  lemma AllColored(files: seq<File>, chains: seq<seq<File>>, color: seq<nat>, lastOf: seq<nat>)
    requires Colored(files, |files|, chains, color, lastOf)
    ensures ProperColoring(files, color, |chains|)
    ensures forall c :: 0 <= c < |chains| ==> chains[c] == ColorClass(files, color, c)
  {
    assert files[..|files|] == files;
    forall c: nat | c < |chains| ensures chains[c] == ColorClass(files, color, c) {
      assert ChainColored(files, chains[c], color, lastOf[c], c);
    }
  }

  lemma {:induction false} DepthConcat(a: seq<File>, b: seq<File>, x: int)
    ensures Depth(a + b, x) == Depth(a, x) + Depth(b, x)
    decreases |b|
  {
    if b == [] {
      assert a + b == a;
    } else {
      DepthConcat(a, b[..|b| - 1], x);
      assert (a + b)[..|a + b| - 1] == a + b[..|b| - 1];
    }
  }

  lemma RemoveOne(a: seq<File>, i: nat)
    requires i < |a|
    ensures multiset(a[..i] + a[i + 1..]) == multiset(a) - multiset{a[i]}
  {
    assert a == a[..i] + [a[i]] + a[i + 1..];
  }

  lemma {:induction false} DepthWithout(b: seq<File>, i: nat, x: int)
    requires i < |b|
    ensures Depth(b, x) == Depth(b[..i] + b[i + 1..], x) + (if Has(b[i], x) then 1 else 0)
  {
    var b0, b1 := b[..i], b[i + 1..];
    assert b == (b0 + [b[i]]) + b1;
    DepthConcat(b0 + [b[i]], b1, x);
    DepthSnoc(b0, b[i], x);
    DepthConcat(b0, b1, x);
  }

  lemma WithoutLast(a: seq<File>)
    requires a != []
    ensures multiset(a[..|a| - 1]) == multiset(a) - multiset{a[|a| - 1]}
  {
    assert a == a[..|a| - 1] + [a[|a| - 1]];
  }

  /** The depth does not depend on the order of the files. */
  lemma {:induction false} DepthPermutation(a: seq<File>, b: seq<File>, x: int)
    requires multiset(a) == multiset(b)
    ensures Depth(a, x) == Depth(b, x)
    decreases |a|
  {
    assert |multiset(a)| == |multiset(b)|;
    if a != [] {
      var last := a[|a| - 1];
      assert last in multiset(b);
      var i :| 0 <= i < |b| && b[i] == last;
      WithoutLast(a);
      RemoveOne(b, i);
      DepthPermutation(a[..|a| - 1], b[..i] + b[i + 1..], x);
      DepthWithout(b, i, x);
    }
  }

  lemma {:induction false} ConcatDepth(classes: seq<seq<File>>, x: int)
    ensures Depth(Concat(classes), x) == TotalDepth(classes, x)
  {
    if classes != [] {
      ConcatDepth(classes[..|classes| - 1], x);
      DepthConcat(Concat(classes[..|classes| - 1]), classes[|classes| - 1], x);
    }
  }

  /** No partition of the files into classes without overlaps has fewer classes than first-fit has
      chains. */
  lemma FewestOverlapFreeClasses(files: seq<File>, chains: seq<seq<File>>, classes: seq<seq<File>>)
    requires ChainPartition(files, chains) && NoInstants(files)
    requires multiset(Concat(classes)) == multiset(files)
    requires forall i :: 0 <= i < |classes| ==> NonOverlapping(classes[i])
    ensures |chains| <= |classes|
  {
    if files != [] {
      var x :| Depth(files, x) == |chains|;
      DepthPermutation(Concat(classes), files, x);
      ConcatDepth(classes, x);
      DepthAtMostClasses(classes, x);
    }
  }

  /** A file that spans a single instant may share a class with a file that starts then, but first fit
      gives it a chain of its own when it is sorted after that file. */
  lemma InstantGetsOwnChain()
    ensures var files := [File(1, 0, 0, 10), File(2, 0, 0, 0)];
            SortedBy(files, MinTsOf) && NonOverlapping(files) && |ChainsAt(files, 2)| == 2
  {
    var a, b := File(1, 0, 0, 10), File(2, 0, 0, 0);
    var files := [a, b];
    assert ChainsAt(files, 0) == [];
    assert ChainsAt(files, 1) == [[a]];
    assert FirstFree([[a]], b) == 1;
  }

  lemma {:induction false} ConcatConcat(a: seq<seq<File>>, b: seq<seq<File>>)
    ensures Concat(a + b) == Concat(a) + Concat(b)
    decreases |b|
  {
    if b == [] {
      assert a + b == a;
    } else {
      var front, last := b[..|b| - 1], b[|b| - 1];
      ConcatConcat(a, front);
      assert (a + b)[..|a + b| - 1] == a + front;
      assert Concat(a) + Concat(b) == Concat(a) + Concat(front) + last;
    }
  }

  /** A consecutive part of a chain is free of overlaps. */
  lemma CutNonOverlapping(groups: seq<seq<File>>, c: seq<File>, k: nat)
    requires Concat(groups) == c && NonOverlapping(c) && k < |groups|
    ensures NonOverlapping(groups[k])
  {
    GroupSlice(groups, k);
    SliceNonOverlapping(c, Start(groups, k), Start(groups, k + 1));
  }

  lemma SliceNonOverlapping(c: seq<File>, a: nat, b: nat)
    requires NonOverlapping(c) && a <= b <= |c|
    ensures NonOverlapping(c[a..b])
  {
    forall i, j | 0 <= i < j < b - a ensures !Overlap(c[a..b][i], c[a..b][j]) {
      assert c[a..b][i] == c[a + i] && c[a..b][j] == c[a + j];
    }
  }

  /** The groups of all chains, chain after chain. */
  function AllGroups(cuts: seq<seq<seq<File>>>): seq<seq<File>> {
    if cuts == [] then [] else AllGroups(cuts[..|cuts| - 1]) + cuts[|cuts| - 1]
  }

  /** Every chain is cut into maximal fitting groups. */
  ghost predicate CutChains(cuts: seq<seq<seq<File>>>, chains: seq<seq<File>>, limit: int) {
    && |cuts| == |chains|
    && forall i :: 0 <= i < |chains| ==> ValidCut(cuts[i], chains[i], limit) && Maximal(cuts[i], limit)
  }

  /** `group_by_time_range`: chains first, then each chain split by size.  The groups hold exactly
      the input files, none of them has an overlap, and each is a singleton or fits the limit; the
      chains are as few as possible, and so are the groups of each chain. */
  method GroupByTimeRange(files: seq<File>, limit: int)
    returns (groups: seq<seq<File>>, ghost chains: seq<seq<File>>, ghost cuts: seq<seq<seq<File>>>)
    ensures multiset(Concat(groups)) == multiset(files)
    ensures forall k :: 0 <= k < |groups| ==> NonOverlapping(groups[k]) && Fits(groups[k], limit)
    ensures |SortBy(files, MinTsOf)| == |files| && chains == ChainsAt(SortBy(files, MinTsOf), |files|)
    ensures ChainPartition(SortBy(files, MinTsOf), chains)
    ensures CutChains(cuts, chains, limit) && groups == AllGroups(cuts)
  {
    var sorted := SortBy(files, MinTsOf);
    SortBySound(files, MinTsOf);
    var found := ChainFiles(sorted);
    chains := found;
    groups, cuts := SplitChains(found, limit);
  }

  method SplitChains(chains: seq<seq<File>>, limit: int)
    returns (groups: seq<seq<File>>, ghost cuts: seq<seq<seq<File>>>)
    requires forall i :: 0 <= i < |chains| ==> IsChain(chains[i]) && SortedBy(chains[i], MinTsOf)
    ensures Concat(groups) == Concat(chains)
    ensures forall k :: 0 <= k < |groups| ==> NonOverlapping(groups[k]) && Fits(groups[k], limit)
    ensures CutChains(cuts, chains, limit) && groups == AllGroups(cuts)
  {
    groups, cuts := [], [];
    for i := 0 to |chains|
      invariant Concat(groups) == Concat(chains[..i])
      invariant forall k :: 0 <= k < |groups| ==> NonOverlapping(groups[k]) && Fits(groups[k], limit)
      invariant CutChains(cuts, chains[..i], limit) && groups == AllGroups(cuts)
    {
      var parts := SplitChain(chains[i], limit);
      ConcatConcat(groups, parts);
      assert chains[..i + 1][..i] == chains[..i];
      OneMoreCut(cuts, chains, i, parts, limit);
      groups, cuts := groups + parts, cuts + [parts];
    }
    assert chains[..|chains|] == chains;
  }

  lemma OneMoreCut(cuts: seq<seq<seq<File>>>, chains: seq<seq<File>>, i: nat, parts: seq<seq<File>>, limit: int)
    requires i < |chains| && CutChains(cuts, chains[..i], limit)
    requires ValidCut(parts, chains[i], limit) && Maximal(parts, limit)
    ensures CutChains(cuts + [parts], chains[..i + 1], limit)
    ensures AllGroups(cuts + [parts]) == AllGroups(cuts) + parts
  {
    assert (cuts + [parts])[..|cuts|] == cuts;
  }

  /** Splitting a chain by size: the sort changes nothing, the parts stay free of overlaps. */
  method SplitChain(c: seq<File>, limit: int) returns (parts: seq<seq<File>>)
    requires IsChain(c) && SortedBy(c, MinTsOf)
    ensures ValidCut(parts, c, limit) && Maximal(parts, limit)
    ensures forall k :: 0 <= k < |parts| ==> NonOverlapping(parts[k])
  {
    parts := GroupByFileTime(c, limit);
    SortBySorted(c, MinTsOf);
    ChainNonOverlapping(c);
    forall k | 0 <= k < |parts| ensures NonOverlapping(parts[k]) {
      CutNonOverlapping(parts, c, k);
    }
  }
}
