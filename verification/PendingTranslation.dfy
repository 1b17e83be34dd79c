/** Translating all pending leaves of a locale: strings and list elements are flattened into one
    work list, cut into chunks that are translated concurrently, validated, and put back
    (`translate_pending` in scripts/translations/translator.py). */
module PendingTranslation {
  import opened Options
  import B = BatchTranslator
  import M = MessageScanner

  type Path = seq<string>

  /** An element of a list leaf. */
  datatype Elem = Str(s: string) | Null | Raw(text: string)
  /** A string, a list, or the JSON text of anything else, which is sent like a string. */
  datatype Value = Single(s: string) | Many(items: seq<Elem>) | Bare(text: string)
  datatype Leaf = Leaf(path: Path, value: Value)

  /** An entry of the work list: unit, element and source text, and whether it is no string. */
  datatype Entry = Entry(u: nat, e: nat, src: string, bare: bool)

  /** `None` where the program holds no value. */
  type Slots = seq<Option<Elem>>

  function Width(v: Value): nat {
    if v.Many? then |v.items| else 1
  }

  /** What is sent: the non-blank strings of a list leaf, and any other leaf. */
  predicate IsWord(cl: M.Classes, v: Value, e: nat)
    requires e < Width(v)
  {
    !v.Many? || (v.items[e].Str? && !M.Blank(cl, v.items[e].s))
  }

  function Word(cl: M.Classes, v: Value, e: nat): string
    requires e < Width(v) && IsWord(cl, v, e)
  {
    match v
    case Single(s) => s
    case Many(items) => items[e].s
    case Bare(text) => text
  }

  function EntryFor(cl: M.Classes, u: nat, v: Value, e: nat): Entry
    requires e < Width(v) && IsWord(cl, v, e)
  {
    Entry(u, e, Word(cl, v, e), v.Bare?)
  }

  function Kept(x: Elem): Option<Elem> {
    if x.Null? then None else Some(x)
  }

  // ----- The work list -----

  function Entries(cl: M.Classes, u: nat, v: Value, n: nat): seq<Entry>
    requires n <= Width(v)
  {
    if n == 0 then []
    else Entries(cl, u, v, n - 1) + (if IsWord(cl, v, n - 1) then [EntryFor(cl, u, v, n - 1)] else [])
  }

  function Flat(cl: M.Classes, pending: seq<Leaf>, n: nat): seq<Entry>
    requires n <= |pending|
  {
    if n == 0 then []
    else Flat(cl, pending, n - 1) + Entries(cl, n - 1, pending[n - 1].value, Width(pending[n - 1].value))
  }

  /** The position of element `e` of leaf `u` in the work list. */
  function Index(cl: M.Classes, pending: seq<Leaf>, u: nat, e: nat): nat
    requires u < |pending| && e < Width(pending[u].value)
  {
    |Flat(cl, pending, u)| + |Entries(cl, u, pending[u].value, e)|
  }

  lemma {:induction false} EntriesPrefix(cl: M.Classes, u: nat, v: Value, a: nat, b: nat)
    requires a <= b <= Width(v)
    ensures Entries(cl, u, v, a) <= Entries(cl, u, v, b)
    decreases b
  {
    if a < b { EntriesPrefix(cl, u, v, a, b - 1); }
  }

  lemma {:induction false} FlatPrefix(cl: M.Classes, pending: seq<Leaf>, a: nat, b: nat)
    requires a <= b <= |pending|
    ensures Flat(cl, pending, a) <= Flat(cl, pending, b)
    decreases b
  {
    if a < b { FlatPrefix(cl, pending, a, b - 1); }
  }

  /** Each string of each leaf is in the work list, at its index. */
  lemma {:induction false} FlatAt(cl: M.Classes, pending: seq<Leaf>, u: nat, e: nat)
    requires u < |pending| && e < Width(pending[u].value) && IsWord(cl, pending[u].value, e)
    ensures Index(cl, pending, u, e) < |Flat(cl, pending, |pending|)|
    ensures Flat(cl, pending, |pending|)[Index(cl, pending, u, e)] == EntryFor(cl, u, pending[u].value, e)
  {
    var v := pending[u].value;
    EntriesPrefix(cl, u, v, e + 1, Width(v));
    FlatPrefix(cl, pending, u + 1, |pending|);
    assert Entries(cl, u, v, Width(v))[|Entries(cl, u, v, e)|] == EntryFor(cl, u, v, e);
    assert Flat(cl, pending, u + 1) == Flat(cl, pending, u) + Entries(cl, u, v, Width(v));
  }

  /** `x` is the entry of a string, and `k` its index. */
  ghost predicate EntryOk(cl: M.Classes, pending: seq<Leaf>, x: Entry, k: nat) {
    && x.u < |pending| && x.e < Width(pending[x.u].value) && IsWord(cl, pending[x.u].value, x.e)
    && x == EntryFor(cl, x.u, pending[x.u].value, x.e) && k == Index(cl, pending, x.u, x.e)
  }

  lemma {:induction false} EntriesOk(cl: M.Classes, pending: seq<Leaf>, u: nat, n: nat, k: nat)
    requires u < |pending| && n <= Width(pending[u].value) && k < |Entries(cl, u, pending[u].value, n)|
    ensures EntryOk(cl, pending, Entries(cl, u, pending[u].value, n)[k], |Flat(cl, pending, u)| + k)
    decreases n
  {
    if k < |Entries(cl, u, pending[u].value, n - 1)| { EntriesOk(cl, pending, u, n - 1, k); }
  }

  /** The work list holds nothing else. */
  lemma {:induction false} FlatOk(cl: M.Classes, pending: seq<Leaf>, n: nat, k: nat)
    requires n <= |pending| && k < |Flat(cl, pending, n)|
    ensures EntryOk(cl, pending, Flat(cl, pending, n)[k], k)
    decreases n
  {
    var m := |Flat(cl, pending, n - 1)|;
    if k < m {
      FlatOk(cl, pending, n - 1, k);
    } else {
      EntriesOk(cl, pending, n - 1, Width(pending[n - 1].value), k - m);
    }
  }

  // ----- The slots -----

  function InitialSlots(cl: M.Classes, v: Value): (r: Slots)
    ensures |r| == Width(v)
  {
    if !v.Many? then [None]
    else seq(|v.items|, i requires 0 <= i < |v.items| => if IsWord(cl, v, i) then None else Kept(v.items[i]))
  }

  /** The validated answer; one for something other than a string never validates. */
  function Checked(cl: M.Classes, x: Entry, out: Option<string>): Option<Elem> {
    var r := M.Validate(cl, x.src, out);
    if x.bare || r.None? then None else Some(Str(r.value))
  }

  /** Validation raises an error: it compares a message with something that is no string. */
  predicate Raises(cl: M.Classes, x: Entry, out: Option<string>) {
    x.bare && out.Some? && !M.Blank(cl, out.value) && M.Parse(cl, out.value).1
  }

  /** What a leaf's slot must hold at the end, given all results in work-list order. */
  function FinalSlot(cl: M.Classes, pending: seq<Leaf>, outs: seq<Option<string>>, u: nat, e: nat): Option<Elem>
    requires u < |pending| && e < Width(pending[u].value) && |outs| == |Flat(cl, pending, |pending|)|
  {
    if IsWord(cl, pending[u].value, e) then
      FlatAt(cl, pending, u, e);
      Checked(cl, EntryFor(cl, u, pending[u].value, e), outs[Index(cl, pending, u, e)])
    else Kept(pending[u].value.items[e])
  }

  /** The slots after the first `k` results have been put back. */
  ghost predicate PutBack(cl: M.Classes, pending: seq<Leaf>, outs: seq<Option<string>>, slots: seq<Slots>, k: nat) {
    && |outs| == |Flat(cl, pending, |pending|)| && |slots| == |pending|
    && forall u :: 0 <= u < |pending| ==> UnitPutBack(cl, pending, outs, slots[u], u, k)
  }

  ghost predicate UnitPutBack(cl: M.Classes, pending: seq<Leaf>, outs: seq<Option<string>>, slots: Slots, u: nat,
                              k: nat)
    requires u < |pending| && |outs| == |Flat(cl, pending, |pending|)|
  {
    && |slots| == Width(pending[u].value)
    && forall e :: 0 <= e < |slots| ==>
         (IsWord(cl, pending[u].value, e) && Index(cl, pending, u, e) >= k)
             || slots[e] == FinalSlot(cl, pending, outs, u, e)
  }

  lemma {:induction false} PutBackInitially(cl: M.Classes, pending: seq<Leaf>, outs: seq<Option<string>>,
                                            slots: seq<Slots>)
    requires |outs| == |Flat(cl, pending, |pending|)| && |slots| == |pending|
    requires forall u :: 0 <= u < |pending| ==> slots[u] == InitialSlots(cl, pending[u].value)
    ensures PutBack(cl, pending, outs, slots, 0)
  {
  }

  lemma {:induction false} PutBackOne(cl: M.Classes, pending: seq<Leaf>, outs: seq<Option<string>>,
                                      slots: seq<Slots>, k: nat)
    requires PutBack(cl, pending, outs, slots, k) && k < |outs|
    ensures
      var x := Flat(cl, pending, |pending|)[k];
      && x.u < |slots| && x.e < |slots[x.u]|
      && PutBack(cl, pending, outs, slots[x.u := slots[x.u][x.e := Checked(cl, x, outs[k])]], k + 1)
  {
    FlatOk(cl, pending, |pending|, k);
    var x := Flat(cl, pending, |pending|)[k];
    assert UnitPutBack(cl, pending, outs, slots[x.u], x.u, k);
    var unit := slots[x.u][x.e := Checked(cl, x, outs[k])];
    forall e | 0 <= e < |unit|
      ensures (IsWord(cl, pending[x.u].value, e) && Index(cl, pending, x.u, e) >= k + 1)
          || unit[e] == FinalSlot(cl, pending, outs, x.u, e)
    {
      if e != x.e && IsWord(cl, pending[x.u].value, e) { IndexInjective(cl, pending, x.u, e, x.u, x.e); }
    }
    assert UnitPutBack(cl, pending, outs, unit, x.u, k + 1);
    var next := slots[x.u := unit];
    forall u | 0 <= u < |pending| && u != x.u
      ensures UnitPutBack(cl, pending, outs, next[u], u, k + 1)
    {
      assert UnitPutBack(cl, pending, outs, slots[u], u, k);
      forall e | 0 <= e < |slots[u]| && IsWord(cl, pending[u].value, e)
        ensures Index(cl, pending, u, e) != k
      {
        IndexInjective(cl, pending, u, e, x.u, x.e);
      }
    }
  }

  lemma {:induction false} IndexInjective(cl: M.Classes, pending: seq<Leaf>, u: nat, e: nat, v: nat, f: nat)
    requires u < |pending| && e < Width(pending[u].value) && IsWord(cl, pending[u].value, e)
    requires v < |pending| && f < Width(pending[v].value) && IsWord(cl, pending[v].value, f)
    ensures Index(cl, pending, u, e) == Index(cl, pending, v, f) ==> u == v && e == f
  {
    FlatAt(cl, pending, u, e);
    FlatAt(cl, pending, v, f);
  }

  // ----- Chunks and their results -----

  function Concat<T>(xss: seq<seq<T>>): seq<T> {
    if xss == [] then [] else Concat(xss[..|xss| - 1]) + xss[|xss| - 1]
  }

  /** Element `j` of part `c` is where the parts before it end, and `j` further. */
  lemma {:induction false} ConcatAt<T>(xss: seq<seq<T>>, c: nat, j: nat)
    requires c < |xss| && j < |xss[c]|
    ensures
      var k := |Concat(xss[..c])| + j;
      k < |Concat(xss)| && Concat(xss)[k] == xss[c][j]
    decreases |xss|
  {
    var n := |xss| - 1;
    if c < n {
      assert xss[..n][..c] == xss[..c];
      ConcatAt(xss[..n], c, j);
    }
  }

  lemma {:induction false} ConcatSnoc<T>(xss: seq<seq<T>>, c: nat)
    requires c < |xss|
    ensures Concat(xss[..c + 1]) == Concat(xss[..c]) + xss[c]
  {
    assert xss[..c + 1][..c] == xss[..c];
  }

  /** The parts of two lists have the same lengths. */
  ghost predicate SameShape<S, T>(a: seq<seq<S>>, b: seq<seq<T>>) {
    |a| == |b| && forall i :: 0 <= i < |a| ==> |a[i]| == |b[i]|
  }

  lemma {:induction false} SameShapeConcat<S, T>(a: seq<seq<S>>, b: seq<seq<T>>, c: nat)
    requires SameShape(a, b) && c <= |a|
    ensures |Concat(a[..c])| == |Concat(b[..c])|
    decreases c
  {
    if c > 0 {
      SameShapeConcat(a, b, c - 1);
      ConcatSnoc(a, c - 1);
      ConcatSnoc(b, c - 1);
    }
  }

  /** The work list cut into pieces of `size` entries, the last of which may be shorter. */
  function Chunks(flat: seq<Entry>, size: nat): seq<seq<Entry>>
    requires size > 0
    decreases |flat|
  {
    if |flat| == 0 then []
    else if |flat| <= size then [flat]
    else [flat[..size]] + Chunks(flat[size..], size)
  }

  lemma {:induction false} ConcatCons<T>(xs: seq<T>, xss: seq<seq<T>>)
    ensures Concat([xs] + xss) == xs + Concat(xss)
    decreases |xss|
  {
    var all := [xs] + xss;
    if xss == [] {
      assert all == [xs] && [xs][..0] == [];
    } else {
      var front, last := xss[..|xss| - 1], xss[|xss| - 1];
      ConcatCons(xs, front);
      assert all[..|all| - 1] == [xs] + front && all[|all| - 1] == last;
      assert xs + Concat(front) + last == xs + (Concat(front) + last);
    }
  }

  /** The chunks are the work list, each of them non-empty, and all but the last of full size. */
  lemma {:induction false} ChunksSound(flat: seq<Entry>, size: nat)
    requires size > 0
    ensures var chunks := Chunks(flat, size);
            && Concat(chunks) == flat
            && (forall i :: 0 <= i < |chunks| ==> 0 < |chunks[i]| <= size)
            && (forall i :: 0 <= i < |chunks| - 1 ==> |chunks[i]| == size)
    decreases |flat|
  {
    if |flat| > size {
      ChunksSound(flat[size..], size);
      ConcatCons(flat[..size], Chunks(flat[size..], size));
    } else if flat != [] {
      assert [flat][..0] == [];
    }
  }

  method Chunk(flat: seq<Entry>, size: nat) returns (chunks: seq<seq<Entry>>)
    requires size > 0
    ensures chunks == Chunks(flat, size)
  {
    chunks := [];
    var start := 0;
    while start < |flat|
      invariant chunks + Chunks(flat[if start < |flat| then start else |flat|..], size) == Chunks(flat, size)
    {
      var end := if start + size < |flat| then start + size else |flat|;
      ChunksStep(flat, start, end, size);
      chunks := chunks + [flat[start..end]];
      start := start + size;
    }
  }

  lemma ChunksStep(flat: seq<Entry>, start: nat, end: nat, size: nat)
    requires size > 0 && start < |flat| && end == if start + size < |flat| then start + size else |flat|
    ensures Chunks(flat[start..], size) == [flat[start..end]] + Chunks(flat[end..], size)
  {
    var rest := flat[start..];
    if |rest| > size {
      assert rest[..size] == flat[start..end] && rest[size..] == flat[end..];
    } else {
      assert rest == flat[start..end];
    }
  }

  /** Every chunk completes; in which order is not known. */
  ghost predicate CompletionOrder(order: seq<nat>, n: nat) {
    (forall i :: 0 <= i < |order| ==> order[i] < n) && forall i :: 0 <= i < n ==> i in order
  }

  /** What is sent for a chunk; the keys are context for the service. */
  function Items(chunk: seq<Entry>, key: Entry -> string): (r: seq<B.Item>)
    ensures |r| == |chunk| && forall j :: 0 <= j < |chunk| ==> r[j] == B.Item(key(chunk[j]), chunk[j].src)
  {
    seq(|chunk|, j requires 0 <= j < |chunk| => B.Item(key(chunk[j]), chunk[j].src))
  }

  const MAX_RETRIES: nat := 3

  /** The result of a batch over one chunk. */
  ghost function ChunkResult(o: B.Oracle, key: Entry -> string, chunk: seq<Entry>): (r: seq<Option<string>>)
    ensures |r| == |chunk|
  {
    B.BatchAligned(o, MAX_RETRIES, Items(chunk, key), 0, 0);
    B.Batch(o, MAX_RETRIES, Items(chunk, key), 0, 0).results
  }

  /** The results of all chunks.  Batches run concurrently, so what the service answers to one of them
      is a matter of its own. */
  ghost function ChunkResults(oracles: nat -> B.Oracle, key: Entry -> string,
                              chunks: seq<seq<Entry>>): (r: seq<seq<Option<string>>>)
    ensures |r| == |chunks| && forall i :: 0 <= i < |r| ==> r[i] == ChunkResult(oracles(i), key, chunks[i])
  {
    seq(|chunks|, i requires 0 <= i < |chunks| => ChunkResult(oracles(i), key, chunks[i]))
  }

  /** The answers to the whole work list, in its order. */
  ghost function Outs(oracles: nat -> B.Oracle, key: Entry -> string, flat: seq<Entry>,
                      size: nat): (r: seq<Option<string>>)
    requires size > 0
    ensures |r| == |flat|
  {
    var chunks := Chunks(flat, size);
    ChunksSound(flat, size);
    SameLength(chunks, ChunkResults(oracles, key, chunks));
    Concat(ChunkResults(oracles, key, chunks))
  }

  /** One batch, with the answers that its own requests get. */
  method TranslateChunk(o: B.Oracle, key: Entry -> string, chunk: seq<Entry>) returns (result: seq<Option<string>>)
    ensures result == ChunkResult(o, key, chunk)
  {
    var service := new B.Service(o);
    result := service.TranslateBatch(Items(chunk, key), MAX_RETRIES, 0);
  }

  /** Translates the chunks in the order in which they complete, and stores the results by index. */
  method CollectResults(oracles: nat -> B.Oracle, chunks: seq<seq<Entry>>, key: Entry -> string, order: seq<nat>)
    returns (results: seq<seq<Option<string>>>)
    requires CompletionOrder(order, |chunks|)
    ensures results == ChunkResults(oracles, key, chunks)
  {
    results := seq(|chunks|, _ => []);
    for t := 0 to |order|
      invariant |results| == |chunks|
      invariant forall s :: 0 <= s < t ==>
                  results[order[s]] == ChunkResult(oracles(order[s]), key, chunks[order[s]])
    {
      var i := order[t];
      var r := TranslateChunk(oracles(i), key, chunks[i]);
      results := results[i := r];
    }
    forall i | 0 <= i < |chunks| ensures results[i] == ChunkResult(oracles(i), key, chunks[i]) {
      assert i in order;
      var s :| 0 <= s < |order| && order[s] == i;
    }
  }

  // ----- The result -----

  function FinalSlots(cl: M.Classes, pending: seq<Leaf>, outs: seq<Option<string>>, u: nat): (r: Slots)
    requires u < |pending| && |outs| == |Flat(cl, pending, |pending|)|
    ensures |r| == Width(pending[u].value)
  {
    seq(Width(pending[u].value), e requires 0 <= e < Width(pending[u].value) => FinalSlot(cl, pending, outs, u, e))
  }

  predicate AllFilled(slots: Slots) {
    forall e :: 0 <= e < |slots| ==> slots[e].Some?
  }

  function Finished(v: Value, slots: Slots): Value
    requires AllFilled(slots) && |slots| == Width(v)
  {
    if v.Many? then Many(seq(|slots|, e requires 0 <= e < |slots| => slots[e].value))
    else if v.Single? && slots[0].value.Str? then Single(slots[0].value.s) else v
  }

  /** The leaves with a filled slot for each element, with their values. */
  ghost predicate IsResult(pending: seq<Leaf>, slots: seq<Slots>, n: nat, translated: map<Path, Value>)
    requires n <= |pending| == |slots| && forall u :: 0 <= u < |pending| ==> |slots[u]| == Width(pending[u].value)
  {
    && (forall p :: p in translated ==> exists u :: 0 <= u < n && pending[u].path == p)
    && (forall u :: 0 <= u < n ==> (pending[u].path in translated <==> AllFilled(slots[u])))
    && (forall u :: 0 <= u < n && AllFilled(slots[u]) ==>
        translated[pending[u].path] == Finished(pending[u].value, slots[u]))
  }

  function AllFinal(cl: M.Classes, pending: seq<Leaf>, outs: seq<Option<string>>): (r: seq<Slots>)
    requires |outs| == |Flat(cl, pending, |pending|)|
    ensures |r| == |pending| && forall u :: 0 <= u < |pending| ==> r[u] == FinalSlots(cl, pending, outs, u)
  {
    seq(|pending|, u requires 0 <= u < |pending| => FinalSlots(cl, pending, outs, u))
  }

  ghost predicate DistinctPaths(pending: seq<Leaf>) {
    forall i, j :: 0 <= i < j < |pending| ==> pending[i].path != pending[j].path
  }

  lemma {:induction false} PutBackFinally(cl: M.Classes, pending: seq<Leaf>, outs: seq<Option<string>>,
                                          slots: seq<Slots>)
    requires PutBack(cl, pending, outs, slots, |outs|)
    ensures slots == AllFinal(cl, pending, outs)
  {
    forall u | 0 <= u < |pending|
      ensures slots[u] == FinalSlots(cl, pending, outs, u)
    {
      assert UnitPutBack(cl, pending, outs, slots[u], u, |outs|);
      forall e | 0 <= e < |slots[u]| && IsWord(cl, pending[u].value, e)
        ensures Index(cl, pending, u, e) < |outs|
      {
        FlatAt(cl, pending, u, e);
      }
    }
  }

  method Flatten(cl: M.Classes, pending: seq<Leaf>) returns (flat: seq<Entry>, slots: seq<Slots>)
    ensures flat == Flat(cl, pending, |pending|)
    ensures |slots| == |pending| && forall u :: 0 <= u < |pending| ==> slots[u] == InitialSlots(cl, pending[u].value)
  {
    flat, slots := [], [];
    for u := 0 to |pending|
      invariant flat == Flat(cl, pending, u)
      invariant |slots| == u && forall i :: 0 <= i < u ==> slots[i] == InitialSlots(cl, pending[i].value)
    {
      var v := pending[u].value;
      slots := slots + [InitialSlots(cl, v)];
      ghost var before := flat;
      for e := 0 to Width(v)
        invariant flat == before + Entries(cl, u, v, e)
      {
        if IsWord(cl, v, e) { flat := flat + [EntryFor(cl, u, v, e)]; }
      }
    }
  }

  /** One validated result in its slot. */
  function PutOne(cl: M.Classes, slots: seq<Slots>, x: Entry, out: Option<string>): seq<Slots> {
    if x.u < |slots| && x.e < |slots[x.u]| then slots[x.u := slots[x.u][x.e := Checked(cl, x, out)]] else slots
  }

  lemma {:induction false} PutBackNext(cl: M.Classes, pending: seq<Leaf>, chunks: seq<seq<Entry>>,
                                       results: seq<seq<Option<string>>>, slots: seq<Slots>, c: nat, j: nat)
    requires SameShape(chunks, results) && Concat(chunks) == Flat(cl, pending, |pending|)
    requires c < |chunks| && j < |chunks[c]| && PutBack(cl, pending, Concat(results), slots, |Concat(chunks[..c])| + j)
    ensures PutBack(cl, pending, Concat(results), PutOne(cl, slots, chunks[c][j], results[c][j]),
                    |Concat(chunks[..c])| + j + 1)
  {
    var k := PlaceOf(chunks, results, c, j);
    PutBackAt(cl, pending, Concat(results), slots, k, chunks[c][j], results[c][j]);
  }

  /** A result and its entry stand at the same place. */
  lemma {:induction false} PlaceOf(chunks: seq<seq<Entry>>, results: seq<seq<Option<string>>>, c: nat, j: nat)
    returns (k: nat)
    requires SameShape(chunks, results) && c < |chunks| && j < |chunks[c]|
    ensures k == |Concat(chunks[..c])| + j && k < |Concat(chunks)| && k < |Concat(results)|
    ensures Concat(chunks)[k] == chunks[c][j] && Concat(results)[k] == results[c][j]
  {
    k := |Concat(chunks[..c])| + j;
    ConcatAt(chunks, c, j);
    ConcatAt(results, c, j);
    SameShapeConcat(chunks, results, c);
  }

  lemma PutBackAt(cl: M.Classes, pending: seq<Leaf>, outs: seq<Option<string>>, slots: seq<Slots>, k: nat, x: Entry,
                  out: Option<string>)
    requires PutBack(cl, pending, outs, slots, k) && k < |outs|
    requires x == Flat(cl, pending, |pending|)[k] && out == outs[k]
    ensures PutBack(cl, pending, outs, PutOne(cl, slots, x, out), k + 1)
  {
    PutBackOne(cl, pending, outs, slots, k);
  }

  /** Validating one of the first `n` results raises an error. */
  ghost predicate RaisesBefore(cl: M.Classes, flat: seq<Entry>, outs: seq<Option<string>>, n: nat) {
    exists k :: 0 <= k < n && RaisesAt(cl, flat, outs, k)
  }

  predicate RaisesAt(cl: M.Classes, flat: seq<Entry>, outs: seq<Option<string>>, k: nat) {
    k < |flat| && k < |outs| && Raises(cl, flat[k], outs[k])
  }

  lemma {:induction false} RaisesNext(cl: M.Classes, chunks: seq<seq<Entry>>, results: seq<seq<Option<string>>>, c: nat,
                                      j: nat)
    requires SameShape(chunks, results) && c < |chunks| && j < |chunks[c]|
    ensures
      var flat, outs, n := Concat(chunks), Concat(results), |Concat(chunks[..c])| + j;
      && (RaisesBefore(cl, flat, outs, n + 1) <==>
          RaisesBefore(cl, flat, outs, n) || Raises(cl, chunks[c][j], results[c][j]))
      && (RaisesBefore(cl, flat, outs, n + 1) ==> RaisesBefore(cl, flat, outs, |outs|))
  {
    var k := PlaceOf(chunks, results, c, j);
    assert RaisesAt(cl, Concat(chunks), Concat(results), |Concat(chunks[..c])| + j) <==>
           Raises(cl, chunks[c][j], results[c][j]);
  }

  /** The chunks before `c` and `j` results of chunk `c` are put back, and none raised an error. */
  ghost predicate PutUpTo(cl: M.Classes, pending: seq<Leaf>, chunks: seq<seq<Entry>>,
                          results: seq<seq<Option<string>>>, slots: seq<Slots>, c: nat, j: nat)
    requires c <= |chunks|
  {
    var n := |Concat(chunks[..c])| + j;
    PutBack(cl, pending, Concat(results), slots, n) && !RaisesBefore(cl, Concat(chunks), Concat(results), n)
  }

  lemma {:induction false} PutUpToNext(cl: M.Classes, pending: seq<Leaf>, chunks: seq<seq<Entry>>,
                                       results: seq<seq<Option<string>>>, slots: seq<Slots>, c: nat, j: nat)
    requires SameShape(chunks, results) && Concat(chunks) == Flat(cl, pending, |pending|)
    requires c < |chunks| && j < |chunks[c]| && PutUpTo(cl, pending, chunks, results, slots, c, j)
    ensures Raises(cl, chunks[c][j], results[c][j]) ==>
              RaisesBefore(cl, Concat(chunks), Concat(results), |Concat(results)|)
    ensures !Raises(cl, chunks[c][j], results[c][j]) ==>
              PutUpTo(cl, pending, chunks, results, PutOne(cl, slots, chunks[c][j], results[c][j]), c, j + 1)
  {
    PutBackNext(cl, pending, chunks, results, slots, c, j);
    RaisesNext(cl, chunks, results, c, j);
  }

  /** Validates the results of one chunk and puts them back; the first error ends the program. */
  method PutChunkBack(cl: M.Classes, pending: seq<Leaf>, chunks: seq<seq<Entry>>, results: seq<seq<Option<string>>>,
                      initial: seq<Slots>, c: nat)
    returns (crashed: bool, slots: seq<Slots>)
    requires SameShape(chunks, results) && Concat(chunks) == Flat(cl, pending, |pending|) && c < |chunks|
    requires PutUpTo(cl, pending, chunks, results, initial, c, 0)
    ensures crashed ==> RaisesBefore(cl, Concat(chunks), Concat(results), |Concat(results)|)
    ensures !crashed ==> PutUpTo(cl, pending, chunks, results, slots, c, |chunks[c]|)
  {
    slots := initial;
    for j := 0 to |chunks[c]|
      invariant PutUpTo(cl, pending, chunks, results, slots, c, j)
    {
      PutUpToNext(cl, pending, chunks, results, slots, c, j);
      if Raises(cl, chunks[c][j], results[c][j]) { return true, slots; }
      slots := PutOne(cl, slots, chunks[c][j], results[c][j]);
    }
    crashed := false;
  }

  /** Validates all results and puts them back. */
  method PutAllBack(cl: M.Classes, pending: seq<Leaf>, chunks: seq<seq<Entry>>, results: seq<seq<Option<string>>>,
                    initial: seq<Slots>)
    returns (crashed: bool, slots: seq<Slots>)
    requires SameShape(chunks, results) && Concat(chunks) == Flat(cl, pending, |pending|)
    requires PutBack(cl, pending, Concat(results), initial, 0)
    ensures crashed <==> RaisesBefore(cl, Concat(chunks), Concat(results), |Concat(results)|)
    ensures !crashed ==> PutBack(cl, pending, Concat(results), slots, |Concat(results)|)
  {
    slots := initial;
    for c := 0 to |chunks|
      invariant PutUpTo(cl, pending, chunks, results, slots, c, 0)
    {
      crashed, slots := PutChunkBack(cl, pending, chunks, results, slots, c);
      if crashed { return; }
      ConcatSnoc(chunks, c);
    }
    assert chunks[..|chunks|] == chunks;
    SameLength(chunks, results);
    crashed := false;
  }

  /** The translations of the pending leaves.  They are determined by the answers in work-list order, so
      neither the chunk size nor the order of completion can misalign a translation with its source.
      The program crashes exactly when a leaf that is neither a string nor a list gets a message for
      an answer. */
  method TranslatePending(cl: M.Classes, pending: seq<Leaf>, size: nat, oracles: nat -> B.Oracle, key: Entry -> string,
                          order: nat -> seq<nat>)
    returns (crashed: bool, translated: map<Path, Value>)
    requires size > 0 && DistinctPaths(pending)
    requires forall n: nat :: CompletionOrder(order(n), n)
    ensures var flat := Flat(cl, pending, |pending|);
            var outs := Outs(oracles, key, flat, size);
            && (crashed <==> RaisesBefore(cl, flat, outs, |outs|))
            && (crashed ==> translated == map[])
            && (!crashed ==> IsResult(pending, AllFinal(cl, pending, outs), |pending|, translated))
  {
    var flat, initial := Flatten(cl, pending);
    var chunks := Chunk(flat, size);
    ChunksSound(flat, size);
    var results := CollectResults(oracles, chunks, key, order(|chunks|));
    ghost var outs := Outs(oracles, key, flat, size);
    PutBackInitially(cl, pending, outs, initial);
    var slots;
    crashed, slots := PutAllBack(cl, pending, chunks, results, initial);
    if crashed { return true, map[]; }
    PutBackFinally(cl, pending, outs, slots);
    translated := Collect(pending, slots);
  }

  lemma SameLength<S, T>(a: seq<seq<S>>, b: seq<seq<T>>)
    requires SameShape(a, b)
    ensures |Concat(a)| == |Concat(b)|
  {
    SameShapeConcat(a, b, |a|);
    assert a[..|a|] == a && b[..|b|] == b;
  }

  method Collect(pending: seq<Leaf>, slots: seq<Slots>) returns (translated: map<Path, Value>)
    requires DistinctPaths(pending) && |pending| == |slots|
    requires forall u :: 0 <= u < |pending| ==> |slots[u]| == Width(pending[u].value)
    ensures IsResult(pending, slots, |pending|, translated)
  {
    translated := map[];
    for u := 0 to |pending|
      invariant IsResult(pending, slots, u, translated)
    {
      if AllFilled(slots[u]) {
        translated := translated[pending[u].path := Finished(pending[u].value, slots[u])];
      }
    }
  }

  // ----- What the result means -----

  /** The answer for element `e` of leaf `u`, at its own place in the work list. */
  ghost function AnswerFor(cl: M.Classes, pending: seq<Leaf>, outs: seq<Option<string>>, u: nat, e: nat): Option<string>
    requires u < |pending| && e < Width(pending[u].value)
  {
    var k := Index(cl, pending, u, e);
    if k < |outs| then outs[k] else None
  }

  /** The element can be put into a translated leaf: a string when its answer validates, any other
      element of a list unless it is null. */
  ghost predicate ElementOk(cl: M.Classes, pending: seq<Leaf>, outs: seq<Option<string>>, u: nat, e: nat)
    requires u < |pending| && e < Width(pending[u].value)
  {
    var v := pending[u].value;
    if IsWord(cl, v, e) then !v.Bare? && M.Validate(cl, Word(cl, v, e), AnswerFor(cl, pending, outs, u, e)).Some?
    else !v.items[e].Null?
  }

  lemma FinalSlotIff(cl: M.Classes, pending: seq<Leaf>, outs: seq<Option<string>>, u: nat, e: nat)
    requires |outs| == |Flat(cl, pending, |pending|)| && u < |pending| && e < Width(pending[u].value)
    ensures FinalSlot(cl, pending, outs, u, e).Some? <==> ElementOk(cl, pending, outs, u, e)
    ensures FinalSlot(cl, pending, outs, u, e).Some? ==>
              FinalSlot(cl, pending, outs, u, e).value
              == if IsWord(cl, pending[u].value, e) then Str(AnswerFor(cl, pending, outs, u, e).value)
                 else pending[u].value.items[e]
  {
    if IsWord(cl, pending[u].value, e) { FlatAt(cl, pending, u, e); }
  }

  function ElementAt(v: Value, e: nat): Elem
    requires e < Width(v)
  {
    match v
    case Single(s) => Str(s)
    case Many(items) => items[e]
    case Bare(text) => Raw(text)
  }

  /** The leaf `v` with its strings replaced by their answers, and nothing else changed. */
  ghost predicate ReplacedBy(cl: M.Classes, pending: seq<Leaf>, outs: seq<Option<string>>, u: nat, r: Value)
    requires u < |pending|
  {
    var v := pending[u].value;
    && r.Single? == v.Single? && r.Many? == v.Many? && Width(r) == Width(v)
    && forall e :: 0 <= e < Width(v) ==>
         if IsWord(cl, v, e) then Some(ElementAt(r, e)) == AnswerElem(AnswerFor(cl, pending, outs, u, e))
         else ElementAt(r, e) == v.items[e]
  }

  function AnswerElem(answer: Option<string>): Option<Elem> {
    if answer.Some? then Some(Str(answer.value)) else None
  }

  /** A leaf is translated if and only if it is a string or a list, each of its strings got, at its own
      place in the work list, an answer that validates, and no other element is null; it is then the source's leaf with
      exactly its strings replaced by their answers. */
  lemma {:induction false} TranslatedIff(cl: M.Classes, pending: seq<Leaf>, outs: seq<Option<string>>,
                                         translated: map<Path, Value>, u: nat)
    requires |outs| == |Flat(cl, pending, |pending|)| && u < |pending|
    requires IsResult(pending, AllFinal(cl, pending, outs), |pending|, translated)
    ensures pending[u].path in translated
       <==> forall e :: 0 <= e < Width(pending[u].value) ==> ElementOk(cl, pending, outs, u, e)
    ensures pending[u].path in translated ==> ReplacedBy(cl, pending, outs, u, translated[pending[u].path])
  {
    var slots := FinalSlots(cl, pending, outs, u);
    forall e | 0 <= e < Width(pending[u].value)
      ensures slots[e] == FinalSlot(cl, pending, outs, u, e)
      ensures slots[e].Some? <==> ElementOk(cl, pending, outs, u, e)
      ensures slots[e].Some? ==>
                slots[e].value == if IsWord(cl, pending[u].value, e) then Str(AnswerFor(cl, pending, outs, u, e).value)
                                  else pending[u].value.items[e]
    {
      FinalSlotIff(cl, pending, outs, u, e);
    }
    assert AllFinal(cl, pending, outs)[u] == slots;
    if pending[u].path in translated {
      ValidatedAnswers(cl, pending, outs, u);
    }
  }

  lemma ValidatedAnswers(cl: M.Classes, pending: seq<Leaf>, outs: seq<Option<string>>, u: nat)
    requires u < |pending| && forall e :: 0 <= e < Width(pending[u].value) ==> ElementOk(cl, pending, outs, u, e)
    ensures forall e :: 0 <= e < Width(pending[u].value) && IsWord(cl, pending[u].value, e) ==>
              AnswerFor(cl, pending, outs, u, e).Some?
  {
    forall e | 0 <= e < Width(pending[u].value) && IsWord(cl, pending[u].value, e)
      ensures AnswerFor(cl, pending, outs, u, e).Some?
    {
      assert ElementOk(cl, pending, outs, u, e);
    }
  }

  /** A string put into a translated leaf is the answer for that string, and a message of the
      grammar with the tokens and separators of its source. */
  lemma {:induction false} TranslatedStringIsSafe(cl: M.Classes, pending: seq<Leaf>, outs: seq<Option<string>>,
                                                  u: nat, e: nat)
    requires M.Sane(cl) && |outs| == |Flat(cl, pending, |pending|)| && u < |pending|
    requires e < Width(pending[u].value) && IsWord(cl, pending[u].value, e) && FinalSlot(cl, pending, outs, u, e).Some?
    ensures FinalSlot(cl, pending, outs, u, e).value.Str?
    ensures
      var src, t := Word(cl, pending[u].value, e), FinalSlot(cl, pending, outs, u, e).value.s;
      && Index(cl, pending, u, e) < |outs| && outs[Index(cl, pending, u, e)] == Some(t)
      && M.Pipes(t) == M.Pipes(src)
      && exists ps :: M.WellFormed(cl, ps) && M.Render(ps) == t
          && multiset(M.Tokens(ps)) == multiset(M.Tokens(M.Parse(cl, src).0))
  {
    FlatAt(cl, pending, u, e);
    M.ValidateIff(cl, Word(cl, pending[u].value, e), FinalSlot(cl, pending, outs, u, e).value.s);
  }

  /** A list leaf with a null element is never translated, whatever the service answers. */
  lemma {:induction false} NullElementBlocksLeaf(cl: M.Classes, pending: seq<Leaf>, outs: seq<Option<string>>,
                                                 translated: map<Path, Value>, u: nat, e: nat)
    requires |outs| == |Flat(cl, pending, |pending|)| && u < |pending|
    requires IsResult(pending, AllFinal(cl, pending, outs), |pending|, translated)
    requires pending[u].value.Many? && e < |pending[u].value.items| && pending[u].value.items[e].Null?
    ensures pending[u].path !in translated
  {
    TranslatedIff(cl, pending, outs, translated, u);
    assert !ElementOk(cl, pending, outs, u, e);
  }

  /** A leaf that is neither a string nor a list is sent and never translated: its answer is thrown
      away if it is no message, and crashes the program if it is one. */
  lemma {:induction false} BareLeafIsNeverTranslated(cl: M.Classes, pending: seq<Leaf>, outs: seq<Option<string>>,
                                                     translated: map<Path, Value>, u: nat)
    requires |outs| == |Flat(cl, pending, |pending|)| && u < |pending| && pending[u].value.Bare?
    ensures IsResult(pending, AllFinal(cl, pending, outs), |pending|, translated) ==> pending[u].path !in translated
    ensures var answer := AnswerFor(cl, pending, outs, u, 0);
            answer.Some? && !M.Blank(cl, answer.value) && M.Parse(cl, answer.value).1 ==>
              RaisesBefore(cl, Flat(cl, pending, |pending|), outs, |outs|)
  {
    FlatAt(cl, pending, u, 0);
    assert !ElementOk(cl, pending, outs, u, 0);
    if IsResult(pending, AllFinal(cl, pending, outs), |pending|, translated) {
      TranslatedIff(cl, pending, outs, translated, u);
    }
    var flat, k := Flat(cl, pending, |pending|), Index(cl, pending, u, 0);
    assert RaisesAt(cl, flat, outs, k) ==> RaisesBefore(cl, flat, outs, |outs|);
  }

  // ----- With a service that answers -----

  ghost predicate AllSome(outs: seq<Option<string>>) {
    forall k :: 0 <= k < |outs| ==> outs[k].Some?
  }

  lemma {:induction false} ConcatAllSome(results: seq<seq<Option<string>>>)
    requires forall i :: 0 <= i < |results| ==> AllSome(results[i])
    ensures AllSome(Concat(results))
  {
    if results != [] { ConcatAllSome(results[..|results| - 1]); }
  }

  /** If the service answers every item that is requested alone within the allowed tries, every string
      of the work list gets an answer: what is not translated then failed validation. */
  lemma EveryStringAnswered(oracles: nat -> B.Oracle, key: Entry -> string, flat: seq<Entry>, size: nat)
    requires 0 < size <= B.Pow2(B.MAX_DEPTH)
    requires forall i: nat, item, c :: !B.AloneInVain(oracles(i), MAX_RETRIES, item, c)
    ensures AllSome(Outs(oracles, key, flat, size))
  {
    var chunks := Chunks(flat, size);
    ChunksSound(flat, size);
    var results := ChunkResults(oracles, key, chunks);
    forall i | 0 <= i < |results| ensures AllSome(results[i]) {
      B.BatchContract(oracles(i), MAX_RETRIES, Items(chunks[i], key), 0);
    }
    ConcatAllSome(results);
  }

  /** One of three requests in a row for the item alone is answered. */
  ghost predicate AnsweredAlone(o: B.Oracle, item: B.Item, c: nat) {
    B.Complete(o(c, [item]), 1) || B.Complete(o(c + 1, [item]), 1) || B.Complete(o(c + 2, [item]), 1)
  }

  lemma NotInVain(o: B.Oracle, item: B.Item, c: nat)
    ensures AnsweredAlone(o, item, c) <==> !B.AloneInVain(o, MAX_RETRIES, item, c)
  {
    assert MAX_RETRIES == 3;
    if B.AloneInVain(o, MAX_RETRIES, item, c) {
      assert !B.Complete(o(c, [item]), 1) && !B.Complete(o(c + 1, [item]), 1) && !B.Complete(o(c + 2, [item]), 1);
    }
  }

  /** What the program's own settings promise: for up to 2^32 strings at most 3 (2n - 1) requests, and an
      answer for each of them if each is answered within three requests when it is requested alone. */
  lemma ChunkContract(o: B.Oracle, key: Entry -> string, chunk: seq<Entry>)
    requires 0 < |chunk| <= 0x1_0000_0000
    ensures B.Batch(o, MAX_RETRIES, Items(chunk, key), 0, 0).calls <= 3 * (2 * |chunk| - 1)
    ensures (forall j, c: nat :: 0 <= j < |chunk| ==> AnsweredAlone(o, Items(chunk, key)[j], c)) ==>
            AllSome(ChunkResult(o, key, chunk))
  {
    var items := Items(chunk, key);
    MaxBatch();
    B.BatchContract(o, MAX_RETRIES, items, 0);
    if forall j, c: nat :: 0 <= j < |chunk| ==> AnsweredAlone(o, items[j], c) {
      forall i, c: nat | 0 <= i < |items| ensures !B.AloneInVain(o, MAX_RETRIES, items[i], c) {
        NotInVain(o, items[i], c);
      }
    }
  }

  lemma MaxBatch()
    ensures B.Pow2(B.MAX_DEPTH) == 0x1_0000_0000
  {
    assert B.Pow2(4) == 16;
    assert B.Pow2(8) == 16 * B.Pow2(4);
    assert B.Pow2(12) == 16 * B.Pow2(8);
    assert B.Pow2(16) == 16 * B.Pow2(12);
    assert B.Pow2(20) == 16 * B.Pow2(16);
    assert B.Pow2(24) == 16 * B.Pow2(20);
    assert B.Pow2(28) == 16 * B.Pow2(24);
    assert B.Pow2(32) == 16 * B.Pow2(28);
  }

  // ----- With a service that answers well -----

  /** The service answers each of the texts within three requests for it alone, and every complete reply
      has for each of them an answer that validates. */
  ghost predicate Serves(cl: M.Classes, o: B.Oracle, texts: string -> bool) {
    && (forall item: B.Item, c: nat :: texts(item.text) ==> !B.AloneInVain(o, MAX_RETRIES, item, c))
    && (forall items: seq<B.Item>, c: nat, j: nat ::
          j < |items| && texts(items[j].text) && B.Complete(o(c, items), |items|) ==>
          M.Validate(cl, items[j].text, o(c, items).items[j]).Some?)
  }

  /** The answer validates. */
  predicate Answered(cl: M.Classes, x: Entry, out: Option<string>) {
    M.Validate(cl, x.src, out).Some?
  }

  lemma ServedChunk(cl: M.Classes, o: B.Oracle, key: Entry -> string, chunk: seq<Entry>, texts: string -> bool, k: nat)
    requires Serves(cl, o, texts) && |chunk| <= 0x1_0000_0000 && k < |chunk|
    requires forall j :: 0 <= j < |chunk| ==> texts(chunk[j].src)
    ensures Answered(cl, chunk[k], ChunkResult(o, key, chunk)[k])
  {
    var items := Items(chunk, key);
    var out := B.Batch(o, MAX_RETRIES, items, 0, 0);
    MaxBatch();
    B.BatchContract(o, MAX_RETRIES, items, 0);
    assert forall i, c: nat :: 0 <= i < |items| ==> texts(items[i].text) && !B.AloneInVain(o, MAX_RETRIES, items[i], c);
    var lo, hi, c := B.ResultIsAnswer(o, MAX_RETRIES, items, 0, 0, out, k);
    var asked := items[lo..hi];
    assert asked[k - lo] == items[k] && texts(asked[k - lo].text);
  }

  ghost predicate AllAnswered(cl: M.Classes, flat: seq<Entry>, outs: seq<Option<string>>) {
    |flat| == |outs| && forall k :: 0 <= k < |flat| ==> Answered(cl, flat[k], outs[k])
  }

  lemma {:induction false} ConcatAnswered(cl: M.Classes, chunks: seq<seq<Entry>>, results: seq<seq<Option<string>>>)
    requires |chunks| == |results| && forall i :: 0 <= i < |chunks| ==> AllAnswered(cl, chunks[i], results[i])
    ensures AllAnswered(cl, Concat(chunks), Concat(results))
  {
    if chunks != [] {
      var n := |chunks| - 1;
      ConcatAnswered(cl, chunks[..n], results[..n]);
      assert AllAnswered(cl, chunks[n], results[n]);
    }
  }

  lemma ChunksWithin(flat: seq<Entry>, size: nat, texts: string -> bool, c: nat, j: nat)
    requires size > 0 && forall k :: 0 <= k < |flat| ==> texts(flat[k].src)
    requires c < |Chunks(flat, size)| && j < |Chunks(flat, size)[c]|
    ensures texts(Chunks(flat, size)[c][j].src)
  {
    ChunksSound(flat, size);
    ConcatAt(Chunks(flat, size), c, j);
  }

  /** Every string of the work list gets an answer that validates. */
  lemma EveryAnswerValidates(cl: M.Classes, oracles: nat -> B.Oracle, key: Entry -> string, flat: seq<Entry>, size: nat,
                             texts: string -> bool)
    requires 0 < size <= 0x1_0000_0000 && forall i: nat :: Serves(cl, oracles(i), texts)
    requires forall k :: 0 <= k < |flat| ==> texts(flat[k].src)
    ensures AllAnswered(cl, flat, Outs(oracles, key, flat, size))
  {
    var chunks := Chunks(flat, size);
    ChunksSound(flat, size);
    var results := ChunkResults(oracles, key, chunks);
    forall c | 0 <= c < |chunks| ensures AllAnswered(cl, chunks[c], results[c]) {
      forall j | 0 <= j < |chunks[c]| ensures texts(chunks[c][j].src) {
        ChunksWithin(flat, size, texts, c, j);
      }
      forall k | 0 <= k < |chunks[c]| ensures Answered(cl, chunks[c][k], results[c][k]) {
        ServedChunk(cl, oracles(c), key, chunks[c], texts, k);
      }
    }
    ConcatAnswered(cl, chunks, results);
  }
}
