/** Deleting a time range from dumped file lists: dumps that hold other hours as well are rewritten.
    Hours are numbered; a record's date names one hour. */
module DumpRewrite {
  import RetentionPlan

  const HOUR := 3_600_000_000

  datatype Record = Record(stream: string, date: int, file: string)

  datatype Dump = Dump(name: string, minTs: int, maxTs: int, records: seq<Record>)

  /** What may be queued for deletion: a data file, or a dump file itself. */
  datatype Queued = DataFile(stream: string, date: int, file: string) | DumpFile(name: string)

  function HourOf(t: int): int { t / HOUR }

  function DeletedDataFile(r: Record): Queued {
    DataFile(r.stream, r.date, r.file)
  }

  // ----- Selection, partition and regrouping -----

  /** The dump query: the label overlaps the range and ends by the upper bound. */
  predicate Listed(d: Dump, range: (int, int), bound: int) {
    d.maxTs >= range.0 && d.maxTs <= range.1 + bound && d.minTs <= range.1
  }

  function Select(live: seq<Dump>, range: (int, int), bound: int, listed: bool): seq<Dump> {
    if live == [] then []
    else
      Select(live[..|live| - 1], range, bound, listed) +
      (if Listed(live[|live| - 1], range, bound) == listed then [live[|live| - 1]] else [])
  }

  function AllRecords(dumps: seq<Dump>): seq<Record> {
    if dumps == [] then [] else AllRecords(dumps[..|dumps| - 1]) + dumps[|dumps| - 1].records
  }

  predicate InRange(r: Record, range: (int, int)) {
    HourOf(range.0) <= r.date <= HourOf(range.1)
  }

  function Partition(files: seq<Record>, range: (int, int), doomed: bool): seq<Record> {
    if files == [] then []
    else
      Partition(files[..|files| - 1], range, doomed) +
      (if InRange(files[|files| - 1], range) == doomed then [files[|files| - 1]] else [])
  }

  ghost predicate OneDate(chunk: seq<Record>) {
    chunk != [] && forall i :: 0 <= i < |chunk| ==> chunk[i].date == chunk[0].date
  }

  function Concat(chunks: seq<seq<Record>>): seq<Record> {
    if chunks == [] then [] else Concat(chunks[..|chunks| - 1]) + chunks[|chunks| - 1]
  }

  /** Chunks of one date each, as long as possible. */
  ghost predicate Chunked(chunks: seq<seq<Record>>, done: seq<Record>) {
    && Concat(chunks) == done && (forall k :: 0 <= k < |chunks| ==> OneDate(chunks[k]))
    && forall k :: 0 < k < |chunks| ==> chunks[k - 1][0].date != chunks[k][0].date
  }

  function AddToChunks(chunks: seq<seq<Record>>, r: Record): seq<seq<Record>> {
    var n := |chunks| - 1;
    if chunks != [] && chunks[n] != [] && chunks[n][0].date == r.date
    then chunks[..n] + [chunks[n] + [r]]
    else chunks + [[r]]
  }

  lemma AddKeepsChunks(chunks: seq<seq<Record>>, done: seq<Record>, r: Record)
    requires Chunked(chunks, done)
    ensures Chunked(AddToChunks(chunks, r), done + [r])
  {
    var after := AddToChunks(chunks, r);
    if |after| == |chunks| {
      var front, last := chunks[..|chunks| - 1], chunks[|chunks| - 1];
      assert after[..|after| - 1] == front;
      assert OneDate(last + [r]);
      assert Concat(front) + (last + [r]) == done + [r];
    } else {
      assert after[..|after| - 1] == chunks;
      assert OneDate([r]);
    }
  }

  /** Consecutive records of one date go together. */
  method ChunkByDate(keep: seq<Record>) returns (chunks: seq<seq<Record>>)
    ensures Chunked(chunks, keep)
  {
    chunks := [];
    for i := 0 to |keep|
      invariant Chunked(chunks, keep[..i])
    {
      AddKeepsChunks(chunks, keep[..i], keep[i]);
      assert keep[..i + 1] == keep[..i] + [keep[i]];
      chunks := AddToChunks(chunks, keep[i]);
    }
    assert keep[..|keep|] == keep;
  }

  /** The rewritten dumps: one per chunk, labelled with the deleted range. */
  function Rewritten(chunks: seq<seq<Record>>, names: seq<string>, range: (int, int)): (dumps: seq<Dump>)
    requires |names| >= |chunks|
    ensures |dumps| == |chunks|
    ensures forall k :: 0 <= k < |chunks| ==> dumps[k] == Dump(names[k], range.0, range.1 - 1, chunks[k])
  {
    if chunks == [] then []
    else
      Rewritten(chunks[..|chunks| - 1], names, range) +
      [Dump(names[|chunks| - 1], range.0, range.1 - 1, chunks[|chunks| - 1])]
  }

  /** The table insert silently skips entries whose label starts or ends at zero. */
  function Inserted(dumps: seq<Dump>, range: (int, int)): seq<Dump> {
    if range.0 == 0 || range.1 - 1 == 0 then [] else dumps
  }

  function QueueItems(doomed: seq<Record>, listed: seq<Dump>): seq<Queued> {
    seq(|doomed|, i requires 0 <= i < |doomed| => DeletedDataFile(doomed[i])) +
    seq(|listed|, i requires 0 <= i < |listed| => DumpFile(listed[i].name))
  }

  // ----- The deletion -----

  class Meta {
    var live: seq<Dump>        // dump rows in file_list
    var queue: seq<Queued>     // file_list_deleted
    var stats: set<string>     // dumps with a stats row
  }

  const ATTEMPTS := 5

  /** Rows of `file_list_deleted` are committed a hundred at a time. */
  const INSERT_SIZE := 100

  /** The failure pattern: whether the first call succeeds at each attempt, how many transactions of
      the second one do, and which stats calls succeed. */
  datatype Faults = Faults(process: nat -> bool, add: nat -> nat, dropStats: string -> bool, addStats: string -> bool)

  /** The attempt at which the first call succeeds. */
  function FirstProcessed(f: Faults, t: nat): (r: nat)
    requires t <= ATTEMPTS
    ensures t <= r <= ATTEMPTS && (r < ATTEMPTS ==> f.process(r)) && forall u: nat :: t <= u < r ==> !f.process(u)
    decreases ATTEMPTS - t
  {
    if t == ATTEMPTS || f.process(t) then t else FirstProcessed(f, t + 1)
  }

  predicate Processed(f: Faults) {
    FirstProcessed(f, 0) < ATTEMPTS
  }

  /** The items that an attempt commits. */
  function Sent(f: Faults, items: seq<Queued>, t: nat): seq<Queued> {
    if f.add(t) * INSERT_SIZE >= |items| then items else items[..f.add(t) * INSERT_SIZE]
  }

  predicate AddOk(f: Faults, items: seq<Queued>, t: nat) {
    f.add(t) * INSERT_SIZE >= |items|
  }

  /** What is queued from attempt `t` on: each attempt starts over, until one succeeds. */
  function Added(f: Faults, items: seq<Queued>, t: nat): seq<Queued>
    requires t <= ATTEMPTS
    decreases ATTEMPTS - t
  {
    if t == ATTEMPTS then []
    else Sent(f, items, t) + (if AddOk(f, items, t) then [] else Added(f, items, t + 1))
  }

  /** What all attempts queue. */
  function AllAdded(f: Faults, items: seq<Queued>): seq<Queued> {
    Added(f, items, FirstProcessed(f, 0))
  }

  /** Some attempt from `t` on queues all items. */
  ghost predicate QueuedFrom(f: Faults, items: seq<Queued>, t: nat) {
    exists u: nat :: t <= u < ATTEMPTS && AddOk(f, items, u)
  }

  /** An attempt from `t` on, before one succeeds, fails after it has committed something. */
  ghost predicate WastedFrom(f: Faults, items: seq<Queued>, t: nat) {
    exists u: nat :: t <= u < ATTEMPTS && f.add(u) > 0 && forall v: nat :: t <= v <= u ==> !AddOk(f, items, v)
  }

  /** What the attempts queue: all items if one succeeds, after what failed attempts left behind. */
  lemma {:induction false} AddedParts(f: Faults, items: seq<Queued>, t: nat) returns (again: seq<Queued>)
    requires t <= ATTEMPTS
    ensures Added(f, items, t) == again + (if QueuedFrom(f, items, t) then items else [])
    ensures forall x :: x in again ==> x in items
    ensures again == [] <==> !WastedFrom(f, items, t)
    decreases ATTEMPTS - t
  {
    again := [];
    if t < ATTEMPTS && !AddOk(f, items, t) {
      var later := AddedParts(f, items, t + 1);
      again := Sent(f, items, t) + later;
      assert QueuedFrom(f, items, t) <==> QueuedFrom(f, items, t + 1);
      WastedStep(f, items, t);
    }
  }

  lemma WastedStep(f: Faults, items: seq<Queued>, t: nat)
    requires t < ATTEMPTS && !AddOk(f, items, t)
    ensures WastedFrom(f, items, t) <==> f.add(t) > 0 || WastedFrom(f, items, t + 1)
  {
    if WastedFrom(f, items, t + 1) {
      var u: nat :| t + 1 <= u < ATTEMPTS && f.add(u) > 0 && forall v: nat :: t + 1 <= v <= u ==> !AddOk(f, items, v);
      assert forall v: nat :: t <= v <= u ==> !AddOk(f, items, v);
    }
  }

  /** So all items are queued, or none is, exactly once if and only if no attempt fails half-way, which
      cannot happen to a single transaction. */
  lemma QueuedOnceIff(f: Faults, items: seq<Queued>)
    ensures var t := FirstProcessed(f, 0);
            && (AllAdded(f, items) == (if QueuedFrom(f, items, t) then items else []) <==> !WastedFrom(f, items, t))
            && (forall x :: x in AllAdded(f, items) ==> x in items)
            && (|items| <= INSERT_SIZE ==> !WastedFrom(f, items, t))
  {
    var again := AddedParts(f, items, FirstProcessed(f, 0));
  }

  /** Such a failure: the first hundred of 101 items are queued twice. */
  lemma HalfFailedInsertQueuesTwice(items: seq<Queued>) returns (f: Faults)
    requires |items| == 101
    ensures Processed(f) && AllAdded(f, items) == items[..100] + items
  {
    f := Faults(_ => true, t => t + 1, _ => true, _ => true);
    assert !AddOk(f, items, 0) && AddOk(f, items, 1);
    assert Added(f, items, 1) == items + [] == items;
  }

  /** Before attempt `t`: what is queued so far, and what is still to come. */
  ghost predicate Trying(f: Faults, items: seq<Queued>, first: nat, before: seq<Queued>, queue: seq<Queued>, t: nat,
                         markDone: bool)
    requires first <= ATTEMPTS && t <= ATTEMPTS
  {
    if markDone then first < t && queue + Added(f, items, t) == before + Added(f, items, first)
    else first == FirstProcessed(f, t) && queue == before
  }

  lemma TryQueues(f: Faults, items: seq<Queued>, first: nat, before: seq<Queued>, queue: seq<Queued>, t: nat,
                  markDone: bool)
    requires first <= ATTEMPTS && t < ATTEMPTS && Trying(f, items, first, before, queue, t, markDone)
    requires markDone || f.process(t)
    ensures first < ATTEMPTS
    ensures AddOk(f, items, t) ==> queue + Sent(f, items, t) == before + Added(f, items, first)
    ensures !AddOk(f, items, t) ==> Trying(f, items, first, before, queue + Sent(f, items, t), t + 1, true)
  {
    assert queue + Added(f, items, t) == before + Added(f, items, first);
    AttemptQueues(f, items, t, queue);
  }

  lemma AttemptQueues(f: Faults, items: seq<Queued>, t: nat, queue: seq<Queued>)
    requires t < ATTEMPTS
    ensures queue + Added(f, items, t) ==
            queue + Sent(f, items, t) + (if AddOk(f, items, t) then [] else Added(f, items, t + 1))
  {
  }

  /** The retry loop over the two database calls. */
  method ApplyWithRetry(m: Meta, live': seq<Dump>, items: seq<Queued>, f: Faults)
    modifies m`live, m`queue
    ensures m.live == if Processed(f) then live' else old(m.live)
    ensures m.queue == old(m.queue) + AllAdded(f, items)
  {
    var markDone := false;
    ghost var first := FirstProcessed(f, 0);
    for t := 0 to ATTEMPTS
      invariant m.live == if markDone then live' else old(m.live)
      invariant Trying(f, items, first, old(m.queue), m.queue, t, markDone)
    {
      if !markDone {
        if !f.process(t) { continue; }
        m.live := live';
      }
      TryQueues(f, items, first, old(m.queue), m.queue, t, markDone);
      markDone := true;
      m.queue := m.queue + Sent(f, items, t);
      if AddOk(f, items, t) { return; }
    }
  }

  datatype Outcome = Nothing | DumpFailed | Finished

  /** What a deletion leaves behind. */
  ghost predicate Rewrote(live0: seq<Dump>, live: seq<Dump>, range: (int, int), bound: int, files: seq<Record>,
                          chunks: seq<seq<Record>>, names: seq<string>)
    requires |names| >= |chunks|
  {
    && Chunked(chunks, Partition(files, range, false))
    && live == Select(live0, range, bound, false) + Inserted(Rewritten(chunks, names, range), range)
  }

  // ----- What a deletion means, in times, records and copies -----

  /** The hour of the record and the time range, both ends included, have an instant in common. */
  predicate HourMeets(r: Record, range: (int, int)) {
    r.date * HOUR <= range.1 && range.0 < (r.date + 1) * HOUR
  }

  lemma InRangeIff(r: Record, range: (int, int))
    ensures InRange(r, range) <==> HourMeets(r, range)
  {
    HourBounds(range.0, r.date);
    HourBounds(range.1, r.date);
    HourReached(range.0, r.date);
    HourReached(range.1, r.date);
  }

  /** How many copies of a record the dumps hold. */
  ghost function Copies(dumps: seq<Dump>, r: Record): nat {
    if dumps == [] then 0 else Copies(dumps[..|dumps| - 1], r) + multiset(dumps[|dumps| - 1].records)[r]
  }

  /** The same, without those dumps that a deletion of the range looks at. */
  ghost function CopiesElsewhere(dumps: seq<Dump>, r: Record, range: (int, int), bound: int): nat {
    if dumps == [] then 0
    else
      var last := dumps[|dumps| - 1];
      CopiesElsewhere(dumps[..|dumps| - 1], r, range, bound) +
      (if Listed(last, range, bound) then 0 else multiset(last.records)[r])
  }

  /** A listed dump holds the record. */
  ghost predicate HeldByListed(dumps: seq<Dump>, r: Record, range: (int, int), bound: int) {
    exists d :: d in dumps && Listed(d, range, bound) && r in d.records
  }

  /** The table refuses entries whose label starts or ends at zero. */
  predicate LabelRefused(range: (int, int)) {
    range.0 == 0 || range.1 == 1
  }

  /** Of every record exactly the copies in listed dumps go, and only if its hour meets the range. */
  ghost predicate RemovesRange(live0: seq<Dump>, live: seq<Dump>, range: (int, int), bound: int) {
    forall r: Record :: Copies(live, r) ==
      if HourMeets(r, range) then CopiesElsewhere(live0, r, range, bound) else Copies(live0, r)
  }

  /** Nothing is queued but the data files of records of listed dumps whose hour meets the range, and
      the listed dumps themselves. */
  ghost predicate QueuesOnlyRange(live0: seq<Dump>, added: seq<Queued>, range: (int, int), bound: int) {
    forall x :: x in added ==>
      match x
      case DataFile(stream, date, file) =>
        var r := Record(stream, date, file);
        HourMeets(r, range) && HeldByListed(live0, r, range, bound)
      case DumpFile(name) => exists d :: d in live0 && Listed(d, range, bound) && d.name == name
  }

  /** And all of these are. */
  ghost predicate QueuesRange(live0: seq<Dump>, added: seq<Queued>, range: (int, int), bound: int) {
    && (forall r: Record :: HourMeets(r, range) && HeldByListed(live0, r, range, bound) ==>
          DataFile(r.stream, r.date, r.file) in added)
    && (forall d :: d in live0 && Listed(d, range, bound) ==> DumpFile(d.name) in added)
  }

  lemma {:induction false} CopiesAre(dumps: seq<Dump>, r: Record)
    ensures Copies(dumps, r) == multiset(AllRecords(dumps))[r]
  {
    if dumps != [] { CopiesAre(dumps[..|dumps| - 1], r); }
  }

  lemma {:induction false} ElsewhereAre(dumps: seq<Dump>, r: Record, range: (int, int), bound: int)
    ensures CopiesElsewhere(dumps, r, range, bound) == Copies(Select(dumps, range, bound, false), r)
  {
    if dumps != [] {
      var front, last := dumps[..|dumps| - 1], dumps[|dumps| - 1];
      var rest := Select(front, range, bound, false);
      ElsewhereAre(front, r, range, bound);
      assert (rest + [last])[..|rest|] == rest;
      assert rest + [] == rest;
    }
  }

  lemma {:induction false} ListedMembers(live: seq<Dump>, range: (int, int), bound: int, listed: bool)
    ensures forall d :: d in Select(live, range, bound, listed) <==> d in live && Listed(d, range, bound) == listed
  {
    if live != [] {
      ListedMembers(live[..|live| - 1], range, bound, listed);
      assert live == live[..|live| - 1] + [live[|live| - 1]];
    }
  }

  lemma {:induction false} AllRecordsMembers(dumps: seq<Dump>, r: Record)
    ensures r in AllRecords(dumps) <==> exists d :: d in dumps && r in d.records
  {
    if dumps != [] {
      AllRecordsMembers(dumps[..|dumps| - 1], r);
      assert dumps == dumps[..|dumps| - 1] + [dumps[|dumps| - 1]];
    }
  }

  /** The records that the query returns for the listed dumps. */
  lemma FilesHeld(live: seq<Dump>, range: (int, int), bound: int, files: seq<Record>, r: Record)
    requires multiset(files) == multiset(AllRecords(Select(live, range, bound, true)))
    ensures r in files <==> HeldByListed(live, r, range, bound)
  {
    var listed := Select(live, range, bound, true);
    assert r in files <==> r in multiset(files);
    assert r in AllRecords(listed) <==> r in multiset(AllRecords(listed));
    AllRecordsMembers(listed, r);
    ListedMembers(live, range, bound, true);
  }

  lemma {:induction false} PartitionMembers(files: seq<Record>, range: (int, int), doomed: bool, r: Record)
    ensures r in Partition(files, range, doomed) <==> r in files && HourMeets(r, range) == doomed
  {
    InRangeIff(r, range);
    if files != [] {
      PartitionMembers(files[..|files| - 1], range, doomed, r);
      assert files == files[..|files| - 1] + [files[|files| - 1]];
    }
  }

  lemma {:induction false} PartitionCopies(files: seq<Record>, range: (int, int), r: Record)
    ensures multiset(Partition(files, range, false))[r] == if HourMeets(r, range) then 0 else multiset(files)[r]
  {
    InRangeIff(r, range);
    if files != [] {
      PartitionCopies(files[..|files| - 1], range, r);
      assert files == files[..|files| - 1] + [files[|files| - 1]];
    }
  }

  /** The items of the queue are the data files of the doomed records and the dumps. */
  lemma ItemsAre(doomed: seq<Record>, listed: seq<Dump>)
    ensures forall stream, date, file ::
              DataFile(stream, date, file) in QueueItems(doomed, listed) <==> Record(stream, date, file) in doomed
    ensures forall name :: DumpFile(name) in QueueItems(doomed, listed) <==> exists d :: d in listed && d.name == name
  {
    var items := QueueItems(doomed, listed);
    forall r | r in doomed ensures DataFile(r.stream, r.date, r.file) in items {
      var i :| 0 <= i < |doomed| && doomed[i] == r;
      assert items[i] == DataFile(r.stream, r.date, r.file);
    }
    forall d | d in listed ensures DumpFile(d.name) in items {
      var i :| 0 <= i < |listed| && listed[i] == d;
      assert items[|doomed| + i] == DumpFile(d.name);
    }
  }

  lemma DoomedAre(live0: seq<Dump>, range: (int, int), bound: int, files: seq<Record>, r: Record)
    requires multiset(files) == multiset(AllRecords(Select(live0, range, bound, true)))
    ensures r in Partition(files, range, true) <==> HourMeets(r, range) && HeldByListed(live0, r, range, bound)
  {
    PartitionMembers(files, range, true, r);
    FilesHeld(live0, range, bound, files, r);
  }

  lemma ItemsOnlyRange(live0: seq<Dump>, range: (int, int), bound: int, files: seq<Record>)
    requires multiset(files) == multiset(AllRecords(Select(live0, range, bound, true)))
    ensures QueuesOnlyRange(live0, QueueItems(Partition(files, range, true), Select(live0, range, bound, true)),
                            range, bound)
  {
    var doomed, listed := Partition(files, range, true), Select(live0, range, bound, true);
    ItemsAre(doomed, listed);
    ListedMembers(live0, range, bound, true);
    forall r: Record | r in doomed ensures HourMeets(r, range) && HeldByListed(live0, r, range, bound) {
      DoomedAre(live0, range, bound, files, r);
    }
  }

  lemma ItemsAllRange(live0: seq<Dump>, range: (int, int), bound: int, files: seq<Record>)
    requires multiset(files) == multiset(AllRecords(Select(live0, range, bound, true)))
    ensures QueuesRange(live0, QueueItems(Partition(files, range, true), Select(live0, range, bound, true)),
                        range, bound)
  {
    var doomed, listed := Partition(files, range, true), Select(live0, range, bound, true);
    ItemsAre(doomed, listed);
    ListedMembers(live0, range, bound, true);
    forall r: Record | HourMeets(r, range) && HeldByListed(live0, r, range, bound) ensures r in doomed {
      DoomedAre(live0, range, bound, files, r);
    }
  }

  /** From the success of the first call on, some attempt of the second one stores `n` items or more. */
  ghost predicate StoresUpTo(f: Faults, n: nat) {
    exists u: nat :: FirstProcessed(f, 0) <= u < ATTEMPTS && f.add(u) * INSERT_SIZE >= n
  }

  lemma {:induction false} SelectShorter(live: seq<Dump>, range: (int, int), bound: int, listed: bool)
    ensures |Select(live, range, bound, listed)| <= |live|
  {
    if live != [] { SelectShorter(live[..|live| - 1], range, bound, listed); }
  }

  lemma NothingIff(live0: seq<Dump>, range: (int, int), bound: int, files: seq<Record>)
    requires multiset(files) == multiset(AllRecords(Select(live0, range, bound, true)))
    ensures Select(live0, range, bound, true) == [] || Partition(files, range, true) == [] <==>
            forall r: Record :: HeldByListed(live0, r, range, bound) ==> !HourMeets(r, range)
  {
    var doomed, listed := Partition(files, range, true), Select(live0, range, bound, true);
    ListedMembers(live0, range, bound, true);
    forall r: Record ensures r in doomed <==> HeldByListed(live0, r, range, bound) && HourMeets(r, range) {
      PartitionMembers(files, range, true, r);
      FilesHeld(live0, range, bound, files, r);
    }
    if doomed != [] { assert doomed[0] in doomed; }
  }

  lemma StoringSuffices(live0: seq<Dump>, range: (int, int), bound: int, files: seq<Record>, f: Faults)
    requires StoresUpTo(f, |files| + |live0|)
    ensures QueuedFrom(f, QueueItems(Partition(files, range, true), Select(live0, range, bound, true)),
                       FirstProcessed(f, 0))
  {
    PartitionShorter(files, range, true);
    SelectShorter(live0, range, bound, true);
    var items := QueueItems(Partition(files, range, true), Select(live0, range, bound, true));
    var u: nat :| FirstProcessed(f, 0) <= u < ATTEMPTS && f.add(u) * INSERT_SIZE >= |files| + |live0|;
    assert AddOk(f, items, u);
  }

  lemma QueuesFewer(live0: seq<Dump>, items: seq<Queued>, added: seq<Queued>, range: (int, int), bound: int)
    requires QueuesOnlyRange(live0, items, range, bound) && forall x :: x in added ==> x in items
    ensures QueuesOnlyRange(live0, added, range, bound)
  {
  }

  lemma QueuesMore(live0: seq<Dump>, items: seq<Queued>, added: seq<Queued>, range: (int, int), bound: int)
    requires QueuesRange(live0, items, range, bound) && forall x :: x in items ==> x in added
    ensures QueuesRange(live0, added, range, bound)
  {
  }

  /** What is queued in any failure pattern. */
  lemma AddedQueuesRange(live0: seq<Dump>, range: (int, int), bound: int, files: seq<Record>, f: Faults)
    requires multiset(files) == multiset(AllRecords(Select(live0, range, bound, true)))
    ensures var items := QueueItems(Partition(files, range, true), Select(live0, range, bound, true));
            && QueuesOnlyRange(live0, AllAdded(f, items), range, bound)
            && (StoresUpTo(f, |files| + |live0|) ==> QueuesRange(live0, AllAdded(f, items), range, bound))
  {
    var items := QueueItems(Partition(files, range, true), Select(live0, range, bound, true));
    ItemsOnlyRange(live0, range, bound, files);
    QueuedOnceIff(f, items);
    QueuesFewer(live0, items, AllAdded(f, items), range, bound);
    if StoresUpTo(f, |files| + |live0|) {
      ItemsAllRange(live0, range, bound, files);
      StoringSuffices(live0, range, bound, files, f);
      AllItemsAdded(f, items);
      QueuesMore(live0, items, AllAdded(f, items), range, bound);
    }
  }

  lemma AllItemsAdded(f: Faults, items: seq<Queued>)
    requires QueuedFrom(f, items, FirstProcessed(f, 0))
    ensures forall x :: x in items ==> x in AllAdded(f, items)
  {
    var again := AddedParts(f, items, FirstProcessed(f, 0));
  }

  /** What a stored rewrite leaves live. */
  lemma RewriteRemovesRange(live0: seq<Dump>, live: seq<Dump>, range: (int, int), bound: int, files: seq<Record>,
                            chunks: seq<seq<Record>>, names: seq<string>)
    requires |names| >= |chunks| && Rewrote(live0, live, range, bound, files, chunks, names) && !LabelRefused(range)
    requires multiset(files) == multiset(AllRecords(Select(live0, range, bound, true)))
    ensures RemovesRange(live0, live, range, bound)
  {
    forall r: Record
      ensures Copies(live, r) ==
              if HourMeets(r, range) then CopiesElsewhere(live0, r, range, bound) else Copies(live0, r)
    {
      CopiesAfterRewrite(live0, live, range, bound, files, chunks, names, r);
    }
  }

  lemma CopiesAfterRewrite(live0: seq<Dump>, live: seq<Dump>, range: (int, int), bound: int, files: seq<Record>,
                           chunks: seq<seq<Record>>, names: seq<string>, r: Record)
    requires |names| >= |chunks| && Rewrote(live0, live, range, bound, files, chunks, names) && !LabelRefused(range)
    requires multiset(files) == multiset(AllRecords(Select(live0, range, bound, true)))
    ensures Copies(live, r) ==
            if HourMeets(r, range) then CopiesElsewhere(live0, r, range, bound) else Copies(live0, r)
  {
    var rest, added := Select(live0, range, bound, false), Rewritten(chunks, names, range);
    CopiesAre(live, r);
    CopiesAre(live0, r);
    CopiesAre(rest, r);
    ElsewhereAre(live0, r, range, bound);
    SelectSplits(live0, range, bound);
    PartitionCopies(files, range, r);
    RewrittenRecords(chunks, names, range);
    AllRecordsConcat(rest, added);
    assert multiset(AllRecords(live)) == multiset(AllRecords(rest)) + multiset(Partition(files, range, false));
  }

  /** `files` is what the query over the listed dumps returns, in any order; `names` are the names
      of the new dump files.  Told by times and copies: exactly the copies of records in listed dumps
      whose hour meets the range go, if the first call succeeds once and the label is accepted; their
      data files and these dumps are queued if the second call succeeds from then on, and nothing else
      ever is. */
  method DeleteByTimeRange(m: Meta, range: (int, int), bound: int, files: seq<Record>, names: seq<string>,
                           dumpOk: bool, f: Faults)
    returns (outcome: Outcome, ghost chunks: seq<seq<Record>>)
    requires multiset(files) == multiset(AllRecords(Select(m.live, range, bound, true)))
    requires |names| >= |files|
    modifies m
    ensures |names| >= |chunks|
    ensures outcome.Nothing? <==> Select(old(m.live), range, bound, true) == [] || Partition(files, range, true) == []
    ensures outcome.Nothing? <==>
              forall r: Record :: HeldByListed(old(m.live), r, range, bound) ==> !HourMeets(r, range)
    ensures outcome.DumpFailed? ==> !dumpOk
    ensures outcome.Finished? && Processed(f) && !LabelRefused(range) ==>
              RemovesRange(old(m.live), m.live, range, bound)
    ensures !Processed(f) ==> m.live == old(m.live)
    ensures old(m.queue) <= m.queue
    ensures QueuesOnlyRange(old(m.live), m.queue[|old(m.queue)|..], range, bound)
    ensures outcome.Finished? && StoresUpTo(f, |files| + |old(m.live)|) ==>
              QueuesRange(old(m.live), m.queue[|old(m.queue)|..], range, bound)
    ensures !outcome.Finished? ==> m.live == old(m.live) && m.queue == old(m.queue) && m.stats == old(m.stats)
    ensures outcome.Finished? ==>
              && (if Processed(f) then Rewrote(old(m.live), m.live, range, bound, files, chunks, names)
                  else m.live == old(m.live))
              && m.queue == old(m.queue) + AllAdded(f, QueueItems(Partition(files, range, true),
                                                                  Select(old(m.live), range, bound, true)))
              && m.stats == old(m.stats) - Names(Select(old(m.live), range, bound, true), f.dropStats)
                                         + Names(Rewritten(chunks, names, range), f.addStats)
  {
    chunks := [];
    NothingIff(m.live, range, bound, files);
    AddedQueuesRange(m.live, range, bound, files, f);
    var listed := Select(m.live, range, bound, true);
    if listed == [] { return Nothing, chunks; }
    var doomed, keep := Partition(files, range, true), Partition(files, range, false);
    if doomed == [] { return Nothing, chunks; }
    var groups := ChunkByDate(keep);
    chunks := groups;
    ChunkCount(groups);
    PartitionShorter(files, range, false);
    if !dumpOk { return DumpFailed, chunks; }
    var added := Rewritten(groups, names, range);
    var live' := Select(m.live, range, bound, false) + Inserted(added, range);
    ApplyWithRetry(m, live', QueueItems(doomed, listed), f);
    UpdateStats(m, listed, added, f);
    outcome := Finished;
    if Processed(f) && !LabelRefused(range) {
      RewriteRemovesRange(old(m.live), m.live, range, bound, files, chunks, names);
    }
  }

  function Names(dumps: seq<Dump>, chosen: string -> bool): set<string> {
    set d | d in dumps && chosen(d.name) :: d.name
  }

  /** The stats rows of the old dumps go whether or not the rewrite was stored. */
  method UpdateStats(m: Meta, listed: seq<Dump>, added: seq<Dump>, f: Faults)
    modifies m`stats
    ensures m.stats == old(m.stats) - Names(listed, f.dropStats) + Names(added, f.addStats)
  {
    for i := 0 to |listed|
      invariant m.stats == old(m.stats) - Names(listed[..i], f.dropStats)
    {
      assert listed[..i + 1] == listed[..i] + [listed[i]];
      if f.dropStats(listed[i].name) {
        m.stats := m.stats - {listed[i].name};
      }
      NamesSnoc(listed[..i], listed[i], f.dropStats);
    }
    assert listed[..|listed|] == listed;
    ghost var kept := m.stats;
    for i := 0 to |added|
      invariant m.stats == kept + Names(added[..i], f.addStats)
    {
      assert added[..i + 1] == added[..i] + [added[i]];
      if f.addStats(added[i].name) {
        m.stats := m.stats + {added[i].name};
      }
      NamesSnoc(added[..i], added[i], f.addStats);
    }
    assert added[..|added|] == added;
  }

  lemma NamesSnoc(dumps: seq<Dump>, d: Dump, chosen: string -> bool)
    ensures Names(dumps + [d], chosen) == Names(dumps, chosen) + (if chosen(d.name) then {d.name} else {})
  {
  }

  lemma {:induction false} ChunkCount(chunks: seq<seq<Record>>)
    requires forall k :: 0 <= k < |chunks| ==> OneDate(chunks[k])
    ensures |chunks| <= |Concat(chunks)|
  {
    if chunks != [] {
      ChunkCount(chunks[..|chunks| - 1]);
      assert OneDate(chunks[|chunks| - 1]);
    }
  }

  lemma {:induction false} PartitionShorter(files: seq<Record>, range: (int, int), doomed: bool)
    ensures |Partition(files, range, doomed)| <= |files|
  {
    if files != [] {
      PartitionShorter(files[..|files| - 1], range, doomed);
    }
  }

  // ----- Conservation -----

  lemma {:induction false} AllRecordsConcat(a: seq<Dump>, b: seq<Dump>)
    ensures AllRecords(a + b) == AllRecords(a) + AllRecords(b)
    decreases |b|
  {
    if b == [] {
      assert a + b == a;
    } else {
      AllRecordsConcat(a, b[..|b| - 1]);
      assert (a + b)[..|a + b| - 1] == a + b[..|b| - 1];
      assert AllRecords(a) + AllRecords(b) == AllRecords(a) + AllRecords(b[..|b| - 1]) + b[|b| - 1].records;
    }
  }

  /** Every live record is in a listed or in an unlisted dump. */
  lemma {:induction false} SelectSplits(live: seq<Dump>, range: (int, int), bound: int)
    ensures multiset(AllRecords(live)) ==
            multiset(AllRecords(Select(live, range, bound, true)))
            + multiset(AllRecords(Select(live, range, bound, false)))
  {
    if live != [] {
      var front, last := live[..|live| - 1], live[|live| - 1];
      SelectSplits(front, range, bound);
      var hit := Listed(last, range, bound);
      AllRecordsConcat(Select(front, range, bound, hit), [last]);
      assert [last][..0] == [];
      assert AllRecords([last]) == [] + last.records == last.records;
      assert Select(front, range, bound, !hit) + [] == Select(front, range, bound, !hit);
    }
  }

  lemma {:induction false} PartitionSplits(files: seq<Record>, range: (int, int))
    ensures multiset(files) == multiset(Partition(files, range, true)) + multiset(Partition(files, range, false))
  {
    if files != [] {
      var front, last := files[..|files| - 1], files[|files| - 1];
      var doomed, keep := Partition(front, range, true), Partition(front, range, false);
      PartitionSplits(front, range);
      assert files == front + [last];
      OneMore(front, last);
      OneMore(doomed, last);
      OneMore(keep, last);
      PartitionStep(files, range);
    }
  }

  lemma PartitionStep(files: seq<Record>, range: (int, int))
    requires files != []
    ensures var front, last := files[..|files| - 1], files[|files| - 1];
            var doomed, keep := Partition(front, range, true), Partition(front, range, false);
            if InRange(last, range)
            then Partition(files, range, true) == doomed + [last] && Partition(files, range, false) == keep
            else Partition(files, range, true) == doomed && Partition(files, range, false) == keep + [last]
  {
    NoneMore(Partition(files[..|files| - 1], range, true));
    NoneMore(Partition(files[..|files| - 1], range, false));
  }

  lemma OneMore(rs: seq<Record>, r: Record)
    ensures multiset(rs + [r]) == multiset(rs) + multiset{r}
  {
  }

  lemma NoneMore(rs: seq<Record>)
    ensures rs + [] == rs
  {
  }

  lemma {:induction false} PartitionSide(files: seq<Record>, range: (int, int), doomed: bool)
    ensures forall r :: r in Partition(files, range, doomed) ==> InRange(r, range) == doomed
  {
    if files != [] {
      PartitionSide(files[..|files| - 1], range, doomed);
    }
  }

  /** The new dumps hold the kept records, each exactly once and in order. */
  lemma {:induction false} RewrittenRecords(chunks: seq<seq<Record>>, names: seq<string>, range: (int, int))
    requires |names| >= |chunks|
    ensures AllRecords(Rewritten(chunks, names, range)) == Concat(chunks)
    decreases |chunks|
  {
    if chunks != [] {
      var front := chunks[..|chunks| - 1];
      RewrittenRecords(front, names, range);
      var dumps := Rewritten(chunks, names, range);
      assert dumps[..|dumps| - 1] == Rewritten(front, names, range);
    }
  }

  /** With a refused label the listed dumps go with all their records. */
  lemma RefusedRemovesIff(live0: seq<Dump>, live: seq<Dump>, range: (int, int), bound: int)
    requires live == Select(live0, range, bound, false) + []
    ensures RemovesRange(live0, live, range, bound) <==>
            forall r: Record :: HeldByListed(live0, r, range, bound) ==> HourMeets(r, range)
  {
    assert live == Select(live0, range, bound, false);
    forall r: Record
      ensures Copies(live, r) == CopiesElsewhere(live0, r, range, bound)
      ensures Copies(live, r) == Copies(live0, r) <==> !HeldByListed(live0, r, range, bound)
    {
      ElsewhereAre(live0, r, range, bound);
      CopiesSplit(live0, range, bound, r);
    }
  }

  lemma CopiesSplit(live0: seq<Dump>, range: (int, int), bound: int, r: Record)
    ensures CopiesElsewhere(live0, r, range, bound) <= Copies(live0, r)
    ensures CopiesElsewhere(live0, r, range, bound) == Copies(live0, r) <==> !HeldByListed(live0, r, range, bound)
  {
    var listed := Select(live0, range, bound, true);
    SelectSplits(live0, range, bound);
    ElsewhereAre(live0, r, range, bound);
    CopiesAre(live0, r);
    CopiesAre(Select(live0, range, bound, false), r);
    FilesHeld(live0, range, bound, AllRecords(listed), r);
    assert r in AllRecords(listed) <==> multiset(AllRecords(listed))[r] > 0;
  }

  /** A stored rewrite removes exactly the records of the range from the live dumps, unless the new
      label is refused by the table and there was something to keep. */
  lemma RewriteConservesIff(live0: seq<Dump>, live: seq<Dump>, range: (int, int), bound: int, files: seq<Record>,
                            chunks: seq<seq<Record>>, names: seq<string>)
    requires |names| >= |chunks| && Rewrote(live0, live, range, bound, files, chunks, names)
    requires multiset(files) == multiset(AllRecords(Select(live0, range, bound, true)))
    ensures multiset(AllRecords(live)) + multiset(Partition(files, range, true)) == multiset(AllRecords(live0)) <==>
            (range.0 != 0 && range.1 != 1) || Partition(files, range, false) == []
    ensures RemovesRange(live0, live, range, bound) <==>
            (range.0 != 0 && range.1 != 1) || forall r: Record :: HeldByListed(live0, r, range, bound) ==>
                HourMeets(r, range)
  {
    if range.0 != 0 && range.1 != 1 {
      RewriteRemovesRange(live0, live, range, bound, files, chunks, names);
    } else {
      RefusedRemovesIff(live0, live, range, bound);
    }
    var rest := Select(live0, range, bound, false);
    var added := Rewritten(chunks, names, range);
    var doomed, keep := Partition(files, range, true), Partition(files, range, false);
    SelectSplits(live0, range, bound);
    PartitionSplits(files, range);
    RewrittenRecords(chunks, names, range);
    AllRecordsConcat(rest, Inserted(added, range));
    assert multiset(AllRecords(live0)) == multiset(doomed) + multiset(keep) + multiset(AllRecords(rest));
    if range.0 == 0 || range.1 == 1 {
      assert AllRecords(live) == AllRecords(rest) + [];
      assert |multiset(AllRecords(live0))| == |multiset(doomed)| + |keep| + |multiset(AllRecords(rest))|;
    } else {
      assert multiset(AllRecords(live)) == multiset(AllRecords(rest)) + multiset(keep);
    }
  }

  /** The stored rewrite of every retention day job conserves the kept records: the job's range,
      with its exception for 1970-01-01, never has a label that the table refuses. */
  lemma DayJobRewriteConserves(live0: seq<Dump>, live: seq<Dump>, d: int, bound: int, files: seq<Record>,
                               chunks: seq<seq<Record>>, names: seq<string>)
    requires |names| >= |chunks| && Rewrote(live0, live, RetentionPlan.JobRange(d), bound, files, chunks, names)
    requires multiset(files) == multiset(AllRecords(Select(live0, RetentionPlan.JobRange(d), bound, true)))
    ensures var range := RetentionPlan.JobRange(d);
            && multiset(AllRecords(live)) + multiset(Partition(files, range, true)) == multiset(AllRecords(live0))
            && RemovesRange(live0, live, range, bound)
            && forall r: Record :: HourMeets(r, range) <==> d * 24 <= r.date < (d + 1) * 24
  {
    RetentionPlan.JobRangeIsLabel(d);
    RewriteConservesIff(live0, live, RetentionPlan.JobRange(d), bound, files, chunks, names);
    forall r: Record ensures HourMeets(r, RetentionPlan.JobRange(d)) <==> d * 24 <= r.date < (d + 1) * 24 {
      HoursOfDay(d, r);
    }
  }

  /** The hours that a day job deletes are the 24 hours of its day. */
  lemma HoursOfDay(d: int, r: Record)
    ensures HourMeets(r, RetentionPlan.JobRange(d)) <==> d * 24 <= r.date < (d + 1) * 24
  {
  }

  /** No kept record's data file is ever queued, whatever fails. */
  lemma KeptNeverQueued(files: seq<Record>, range: (int, int), listed: seq<Dump>, r: Record, f: Faults)
    requires r in Partition(files, range, false)
    ensures DeletedDataFile(r) !in QueueItems(Partition(files, range, true), listed)
    ensures DeletedDataFile(r) !in AllAdded(f, QueueItems(Partition(files, range, true), listed))
  {
    PartitionSide(files, range, true);
    PartitionSide(files, range, false);
    var doomed := Partition(files, range, true);
    var items := QueueItems(doomed, listed);
    forall i | 0 <= i < |items| ensures items[i] != DeletedDataFile(r) {
      if i < |doomed| {
        assert doomed[i] in doomed;
      }
    }
    QueuedOnceIff(f, items);
  }

  // ----- What the rewrite does not keep -----

  /** A rewritten dump is labelled with the deleted range, which holds none of its records: a later
      query for a kept record's own hour never lists it. */
  lemma KeptRecordsNotListed(files: seq<Record>, range: (int, int), r: Record, d: Dump, bound: int)
    requires r in Partition(files, range, false)
    requires d.minTs == range.0 && d.maxTs == range.1 - 1
    ensures !Listed(d, (r.date * HOUR, (r.date + 1) * HOUR - 1), bound)
  {
    PartitionSide(files, range, false);
    HourBounds(range.0, r.date);
    HourBounds(range.1, r.date);
  }

  lemma HourReached(t: int, h: int)
    ensures h >= HourOf(t) ==> t < (h + 1) * HOUR
    ensures h <= HourOf(t) ==> h * HOUR <= t
  {
    assert HourOf(t) * HOUR <= t < HourOf(t) * HOUR + HOUR;
  }

  lemma HourBounds(t: int, h: int)
    ensures h < HourOf(t) ==> (h + 1) * HOUR <= t
    ensures h > HourOf(t) ==> t < h * HOUR
  {
    assert HourOf(t) * HOUR <= t < HourOf(t) * HOUR + HOUR;
  }

  ghost predicate StatsComplete(live: seq<Dump>, stats: set<string>) {
    forall i :: 0 <= i < |live| ==> live[i].name in stats
  }

  predicate Within(t: int, first: int, last: int) { first <= t <= last }

  /** The query lists a dump exactly when its label and the range have an instant
      in common and the label ends by the upper bound. */
  lemma ListedIff(d: Dump, range: (int, int), bound: nat)
    requires d.minTs <= d.maxTs && range.0 <= range.1
    ensures Listed(d, range, bound) <==>
            (exists t: int :: Within(t, d.minTs, d.maxTs) && Within(t, range.0, range.1)) &&
            d.maxTs <= range.1 + bound
  {
    if Listed(d, range, bound) {
      var t := if d.minTs < range.0 then range.0 else d.minTs;
      assert Within(t, d.minTs, d.maxTs) && Within(t, range.0, range.1);
    }
  }

  /** Five attempts, no more and no fewer. */
  lemma ProcessedIff(f: Faults)
    ensures Processed(f) <==> f.process(0) || f.process(1) || f.process(2) || f.process(3) || f.process(4)
  {
    var r := FirstProcessed(f, 0);
    assert ATTEMPTS == 5;
  }

  /** When all five attempts of the first call fail, the deletion still reports success and still
      drops stats: the live dumps keep their stats rows exactly when every drop fails. */
  lemma FailedRewriteStats(live: seq<Dump>, stats: set<string>, range: (int, int), bound: int, f: Faults,
                           added: seq<Dump>)
    requires StatsComplete(live, stats)
    requires forall a, d :: a in added && d in live ==> a.name != d.name
    ensures var listed := Select(live, range, bound, true);
            StatsComplete(live, stats - Names(listed, f.dropStats) + Names(added, f.addStats)) <==>
            forall d :: d in listed ==> !f.dropStats(d.name)
  {
    var listed := Select(live, range, bound, true);
    var after := stats - Names(listed, f.dropStats) + Names(added, f.addStats);
    SelectMembers(live, range, bound);
    forall d | d in listed && f.dropStats(d.name) ensures !StatsComplete(live, after) {
      var i :| 0 <= i < |live| && live[i] == d;
      assert d.name in Names(listed, f.dropStats);
      assert d.name !in Names(added, f.addStats);
      assert live[i].name !in after;
    }
  }

  lemma {:induction false} SelectMembers(live: seq<Dump>, range: (int, int), bound: int)
    ensures forall d :: d in Select(live, range, bound, true) ==> d in live
  {
    if live != [] {
      SelectMembers(live[..|live| - 1], range, bound);
    }
  }
}
