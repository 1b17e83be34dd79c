/** The split-and-retry batcher of scripts/translations/translator.py over a translation service
    that may answer anything. */
module BatchTranslator {
  import opened Options

  /** A key, sent as context, and the text to translate. */
  datatype Item = Item(key: string, text: string)

  /** A reply is a list, whose blank or non-string elements are `None`, or it is no list at all
      (malformed, no answer, an error of the network). */
  datatype Reply = Malformed | Translations(items: seq<Option<string>>)

  /** The service: the reply to a request may depend on how many requests came before. */
  type Oracle = (nat, seq<Item>) -> Reply

  const MAX_DEPTH: nat := 32

  predicate Complete(reply: Reply, n: nat) {
    reply.Translations? && |reply.items| == n && forall i :: 0 <= i < n ==> reply.items[i].Some?
  }

  // ----- What the batcher computes -----

  /** Results aligned with the items, and the number of requests made so far. */
  datatype Outcome = Outcome(results: seq<Option<string>>, calls: nat)

  function Nones(n: nat): (r: seq<Option<string>>)
    ensures |r| == n && forall i :: 0 <= i < n ==> r[i] == None
  {
    seq(n, _ => None)
  }

  /** Up to `tries` requests for the whole batch; no results when none is complete. */
  function Attempts(o: Oracle, items: seq<Item>, tries: nat, calls: nat): (Option<seq<Option<string>>>, nat)
    decreases tries
  {
    if tries == 0 then (None, calls)
    else if Complete(o(calls, items), |items|) then (Some(o(calls, items).items), calls + 1)
    else Attempts(o, items, tries - 1, calls + 1)
  }

  function Batch(o: Oracle, tries: nat, items: seq<Item>, depth: nat, calls: nat): Outcome
    decreases |items|
  {
    if items == [] then Outcome([], calls)
    else
      var (answer, after) := Attempts(o, items, tries, calls);
      if answer.Some? then Outcome(answer.value, after)
      else if |items| > 1 && depth < MAX_DEPTH then
        var mid := |items| / 2;
        var left := Batch(o, tries, items[..mid], depth + 1, after);
        var right := Batch(o, tries, items[mid..], depth + 1, left.calls);
        Outcome(left.results + right.results, right.calls)
      else Outcome(Nones(|items|), after)
  }

  lemma {:induction false} AttemptsSpec(o: Oracle, items: seq<Item>, tries: nat, calls: nat)
    ensures
      var (answer, after) := Attempts(o, items, tries, calls);
      && calls <= after <= calls + tries
      && (answer.None? ==> after == calls + tries)
      && (answer.None? ==> forall c :: calls <= c < calls + tries ==> !Complete(o(c, items), |items|))
      && (answer.Some? ==>
          calls < after && Complete(o(after - 1, items), |items|) && answer.value == o(after - 1, items).items)
    decreases tries
  {
    if tries > 0 && !Complete(o(calls, items), |items|) {
      AttemptsSpec(o, items, tries - 1, calls + 1);
    }
  }

  // ----- Alignment and number of requests -----

  lemma {:induction false} BatchAligned(o: Oracle, tries: nat, items: seq<Item>, depth: nat, calls: nat)
    ensures |Batch(o, tries, items, depth, calls).results| == |items|
    decreases |items|
  {
    if items != [] {
      var (answer, after) := Attempts(o, items, tries, calls);
      AttemptsSpec(o, items, tries, calls);
      if answer.None? && |items| > 1 && depth < MAX_DEPTH {
        var mid := |items| / 2;
        BatchAligned(o, tries, items[..mid], depth + 1, after);
        BatchAligned(o, tries, items[mid..], depth + 1, Batch(o, tries, items[..mid], depth + 1, after).calls);
      }
    }
  }

  /** The most requests `n` items can cost: every node of the splitting tree tries `tries` times. */
  function Budget(tries: nat, n: nat): nat {
    if n == 0 then 0 else tries * (2 * n - 1)
  }

  lemma BudgetSplits(tries: nat, n: nat, a: nat, b: nat)
    requires n == a + b && a > 0 && b > 0
    ensures tries + Budget(tries, a) + Budget(tries, b) == Budget(tries, n)
  {
    assert tries + tries * (2 * a - 1) + tries * (2 * b - 1) == tries * (1 + (2 * a - 1) + (2 * b - 1));
  }

  lemma BudgetCoversTries(tries: nat, n: nat)
    requires n > 0
    ensures tries <= Budget(tries, n)
  {
    assert tries * (2 * n - 1) == tries + tries * (2 * n - 2);
  }

  lemma {:induction false} BatchCalls(o: Oracle, tries: nat, items: seq<Item>, depth: nat, calls: nat)
    ensures calls <= Batch(o, tries, items, depth, calls).calls <= calls + Budget(tries, |items|)
    decreases |items|
  {
    if items != [] {
      var (answer, after) := Attempts(o, items, tries, calls);
      AttemptsSpec(o, items, tries, calls);
      BudgetCoversTries(tries, |items|);
      if answer.None? && |items| > 1 && depth < MAX_DEPTH {
        var mid := |items| / 2;
        BatchCalls(o, tries, items[..mid], depth + 1, after);
        BatchCalls(o, tries, items[mid..], depth + 1, Batch(o, tries, items[..mid], depth + 1, after).calls);
        BudgetSplits(tries, |items|, mid, |items| - mid);
      }
    }
  }

  // ----- Where results come from -----

  /** Request `c` was for `items[lo..hi]`, was answered completely, and answered item `k` with `r`. */
  ghost predicate AnsweredBy(o: Oracle, items: seq<Item>, k: nat, r: Option<string>, lo: nat, hi: nat, c: nat) {
    && lo <= k < hi <= |items|
    && Complete(o(c, items[lo..hi]), hi - lo) && r == o(c, items[lo..hi]).items[k - lo]
  }

  lemma BatchSplits(o: Oracle, tries: nat, items: seq<Item>, depth: nat, calls: nat, left: Outcome, right: Outcome)
    requires |items| > 1 && depth < MAX_DEPTH && Attempts(o, items, tries, calls) == (None, calls + tries)
    requires left == Batch(o, tries, items[..|items| / 2], depth + 1, calls + tries)
    requires right == Batch(o, tries, items[|items| / 2..], depth + 1, left.calls)
    ensures Batch(o, tries, items, depth, calls) == Outcome(left.results + right.results, right.calls)
  {
  }

  /** What an unanswered batch is split into. */
  lemma {:induction false} Halves(o: Oracle, tries: nat, items: seq<Item>, depth: nat, calls: nat)
    returns (mid: nat, left: Outcome, right: Outcome)
    requires |items| > 1 && depth < MAX_DEPTH && Attempts(o, items, tries, calls).0.None?
    ensures mid == |items| / 2 && 0 < mid < |items|
    ensures left == Batch(o, tries, items[..mid], depth + 1, calls + tries) && |left.results| == mid
    ensures right == Batch(o, tries, items[mid..], depth + 1, left.calls) && |right.results| == |items| - mid
    ensures Batch(o, tries, items, depth, calls) == Outcome(left.results + right.results, right.calls)
    ensures calls + tries <= left.calls <= right.calls
  {
    AttemptsSpec(o, items, tries, calls);
    mid := |items| / 2;
    left := Batch(o, tries, items[..mid], depth + 1, calls + tries);
    right := Batch(o, tries, items[mid..], depth + 1, left.calls);
    BatchSplits(o, tries, items, depth, calls, left, right);
    BatchAligned(o, tries, items[..mid], depth + 1, calls + tries);
    BatchAligned(o, tries, items[mid..], depth + 1, left.calls);
    BatchCalls(o, tries, items[..mid], depth + 1, calls + tries);
    BatchCalls(o, tries, items[mid..], depth + 1, left.calls);
  }

  lemma {:induction false} AnsweredInLeft(o: Oracle, items: seq<Item>, mid: nat, k: nat, r: Option<string>, lo: nat,
                                          hi: nat, c: nat)
    requires mid <= |items| && AnsweredBy(o, items[..mid], k, r, lo, hi, c)
    ensures AnsweredBy(o, items, k, r, lo, hi, c)
  {
    assert items[..mid][lo..hi] == items[lo..hi];
  }

  lemma {:induction false} AnsweredInRight(o: Oracle, items: seq<Item>, mid: nat, k: nat, r: Option<string>, lo: nat,
                                           hi: nat, c: nat)
    requires mid <= k && mid <= |items| && AnsweredBy(o, items[mid..], k - mid, r, lo, hi, c)
    ensures AnsweredBy(o, items, k, r, mid + lo, mid + hi, c)
  {
    assert items[mid..] == items[mid..|items|];
    SliceOfSlice(items, mid, |items|, lo, hi);
  }

  lemma SliceOfSlice(items: seq<Item>, a: nat, b: nat, lo: nat, hi: nat)
    requires a <= b <= |items| && lo <= hi <= b - a
    ensures items[a..b][lo..hi] == items[a + lo..a + hi]
  {
    var x, y := items[a..b][lo..hi], items[a + lo..a + hi];
    forall i | 0 <= i < |x| ensures x[i] == y[i] {
      assert x[i] == items[a..b][lo + i];
    }
    assert x == y;
  }

  lemma {:induction false} AnsweredWhole(o: Oracle, tries: nat, items: seq<Item>, depth: nat, calls: nat, k: nat)
    returns (c: nat)
    requires k < |items| && Attempts(o, items, tries, calls).0.Some?
    ensures calls <= c < Batch(o, tries, items, depth, calls).calls
    ensures |Batch(o, tries, items, depth, calls).results| == |items|
    ensures AnsweredBy(o, items, k, Batch(o, tries, items, depth, calls).results[k], 0, |items|, c)
  {
    AttemptsSpec(o, items, tries, calls);
    assert items[0..|items|] == items;
    c := Attempts(o, items, tries, calls).1 - 1;
  }

  /** Every translation is the service's own answer for that very item, at the item's position
      in the request. */
  lemma {:induction false} ResultIsAnswer(o: Oracle, tries: nat, items: seq<Item>, depth: nat, calls: nat,
                                          out: Outcome, k: nat)
    returns (lo: nat, hi: nat, c: nat)
    requires out == Batch(o, tries, items, depth, calls) && |out.results| == |items|
    requires k < |items| && out.results[k].Some?
    ensures calls <= c < out.calls && AnsweredBy(o, items, k, out.results[k], lo, hi, c)
    decreases |items|, 1
  {
    SomeAnsweredOrSplit(o, tries, items, depth, calls, k);
    if Attempts(o, items, tries, calls).0.Some? {
      c := AnsweredWhole(o, tries, items, depth, calls, k);
      lo, hi := 0, |items|;
    } else {
      var mid, left, right := Halves(o, tries, items, depth, calls);
      if k < mid {
        lo, hi, c := ResultInLeft(o, tries, items, depth + 1, calls + tries, mid, left, k);
      } else {
        lo, hi, c := ResultInRight(o, tries, items, depth + 1, left.calls, mid, right, k);
      }
    }
  }

  lemma {:induction false} ResultInLeft(o: Oracle, tries: nat, items: seq<Item>, depth: nat, calls: nat, mid: nat,
                                        left: Outcome, k: nat)
    returns (lo: nat, hi: nat, c: nat)
    requires k < mid < |items| && |left.results| == mid && left.results[k].Some?
    requires left == Batch(o, tries, items[..mid], depth, calls)
    ensures calls <= c < left.calls && AnsweredBy(o, items, k, left.results[k], lo, hi, c)
    decreases |items|, 0
  {
    lo, hi, c := ResultIsAnswer(o, tries, items[..mid], depth, calls, left, k);
    AnsweredInLeft(o, items, mid, k, left.results[k], lo, hi, c);
  }

  lemma {:induction false} ResultInRight(o: Oracle, tries: nat, items: seq<Item>, depth: nat, calls: nat, mid: nat,
                                         right: Outcome, k: nat)
    returns (lo: nat, hi: nat, c: nat)
    requires 0 < mid <= k < |items| && |right.results| == |items| - mid && right.results[k - mid].Some?
    requires right == Batch(o, tries, items[mid..], depth, calls)
    ensures calls <= c < right.calls && AnsweredBy(o, items, k, right.results[k - mid], lo, hi, c)
    decreases |items|, 0
  {
    lo, hi, c := ResultIsAnswer(o, tries, items[mid..], depth, calls, right, k - mid);
    AnsweredInRight(o, items, mid, k, right.results[k - mid], lo, hi, c);
    lo, hi := mid + lo, mid + hi;
  }

  // ----- Which items are given up -----

  function Pow2(n: nat): nat {
    if n == 0 then 1 else 2 * Pow2(n - 1)
  }

  /** From call `c` on, the item alone was asked for `tries` times in a row in vain. */
  ghost predicate AloneInVain(o: Oracle, tries: nat, item: Item, c: nat) {
    forall t :: c <= t < c + tries ==> !Complete(o(t, [item]), 1)
  }

  lemma {:induction false} SingleGivenUp(o: Oracle, tries: nat, item: Item, depth: nat, calls: nat)
    requires Batch(o, tries, [item], depth, calls).results != []
        && Batch(o, tries, [item], depth, calls).results[0].None?
    ensures AloneInVain(o, tries, item, calls) && Batch(o, tries, [item], depth, calls).calls == calls + tries
  {
    BatchAligned(o, tries, [item], depth, calls);
    NoneUnanswered(o, tries, [item], depth, calls, 0);
    AttemptsSpec(o, [item], tries, calls);
  }

  lemma {:induction false} NoneUnanswered(o: Oracle, tries: nat, items: seq<Item>, depth: nat, calls: nat, k: nat)
    requires k < |items| && |Batch(o, tries, items, depth, calls).results| == |items|
    requires Batch(o, tries, items, depth, calls).results[k].None?
    ensures Attempts(o, items, tries, calls).0.None?
  {
    AttemptsSpec(o, items, tries, calls);
  }

  lemma {:induction false} SomeAnsweredOrSplit(o: Oracle, tries: nat, items: seq<Item>, depth: nat, calls: nat, k: nat)
    requires k < |items| && |Batch(o, tries, items, depth, calls).results| == |items|
    requires Batch(o, tries, items, depth, calls).results[k].Some?
    ensures Attempts(o, items, tries, calls).0.Some? || (|items| > 1 && depth < MAX_DEPTH)
  {
  }

  lemma HalfFits(n: nat, depth: nat)
    requires depth <= MAX_DEPTH && 1 < n <= Pow2(MAX_DEPTH - depth)
    ensures depth < MAX_DEPTH && n / 2 <= Pow2(MAX_DEPTH - depth - 1) && n - n / 2 <= Pow2(MAX_DEPTH - depth - 1)
  {
  }

  /** An item is given up only after it was requested alone, `tries` times in a row, in vain: a bad
      item never costs its neighbours. This holds for up to 2^32 items at depth 0. */
  lemma {:induction false} NoneOnlyAlone(o: Oracle, tries: nat, items: seq<Item>, depth: nat, calls: nat,
                                         out: Outcome, k: nat)
    returns (c: nat)
    requires k < |items| && depth <= MAX_DEPTH && |items| <= Pow2(MAX_DEPTH - depth)
    requires out == Batch(o, tries, items, depth, calls) && |out.results| == |items|
    requires out.results[k].None?
    ensures calls <= c && c + tries <= out.calls && AloneInVain(o, tries, items[k], c)
    decreases |items|
  {
    if |items| == 1 {
      assert items == [items[k]];
      SingleGivenUp(o, tries, items[k], depth, calls);
      c := calls;
    } else {
      HalfFits(|items|, depth);
      NoneUnanswered(o, tries, items, depth, calls, k);
      var mid, left, right := Halves(o, tries, items, depth, calls);
      if k < mid {
        c := NoneOnlyAlone(o, tries, items[..mid], depth + 1, calls + tries, left, k);
      } else {
        c := NoneOnlyAlone(o, tries, items[mid..], depth + 1, left.calls, right, k - mid);
      }
    }
  }

  /** The contract of one top-level batch: aligned, bounded, and complete whenever every item asked
      for alone is answered within `tries` requests. */
  lemma {:induction false} BatchContract(o: Oracle, tries: nat, items: seq<Item>, calls: nat)
    requires |items| <= Pow2(MAX_DEPTH)
    ensures
      var r := Batch(o, tries, items, 0, calls);
      && |r.results| == |items|
      && r.calls <= calls + Budget(tries, |items|)
      && ((forall i, c :: 0 <= i < |items| && calls <= c ==> !AloneInVain(o, tries, items[i], c))
          ==> forall i :: 0 <= i < |items| ==> r.results[i].Some?)
  {
    var r := Batch(o, tries, items, 0, calls);
    BatchAligned(o, tries, items, 0, calls);
    BatchCalls(o, tries, items, 0, calls);
    if forall i, c :: 0 <= i < |items| && calls <= c ==> !AloneInVain(o, tries, items[i], c) {
      forall i | 0 <= i < |items| ensures r.results[i].Some? {
        if r.results[i].None? {
          var c := NoneOnlyAlone(o, tries, items, 0, calls, r, i);
          assert false;
        }
      }
    }
  }

  // ----- The program -----

  class Service {
    const oracle: Oracle
    var calls: nat

    constructor (oracle: Oracle)
      ensures this.oracle == oracle && calls == 0
    {
      this.oracle, calls := oracle, 0;
    }

    method Request(items: seq<Item>) returns (reply: Reply)
      modifies this`calls
      ensures calls == old(calls) + 1 && reply == oracle(old(calls), items)
    {
      reply := oracle(calls, items);
      calls := calls + 1;
    }

    method TranslateBatch(items: seq<Item>, maxRetries: nat, depth: nat) returns (results: seq<Option<string>>)
      modifies this`calls
      ensures Outcome(results, calls) == Batch(oracle, maxRetries, items, depth, old(calls))
      decreases |items|
    {
      if items == [] { return []; }
      for attempt := 0 to maxRetries
        invariant calls == old(calls) + attempt
        invariant Attempts(oracle, items, maxRetries, old(calls))
            == Attempts(oracle, items, maxRetries - attempt, calls)
      {
        var reply := Request(items);
        if Complete(reply, |items|) { return reply.items; }
      }
      if |items| > 1 && depth < MAX_DEPTH {
        var mid := |items| / 2;
        var left := TranslateBatch(items[..mid], maxRetries, depth + 1);
        var right := TranslateBatch(items[mid..], maxRetries, depth + 1);
        return left + right;
      }
      return Nones(|items|);
    }
  }
}
