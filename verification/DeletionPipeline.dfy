/** From the file list to the object store: files leave `file_list`, wait in `file_list_deleted`,
    and a delayed job removes their objects and then their queue rows. */
module DeletionPipeline {
  import opened Options
  import opened Sorting

  datatype FileKey = FileKey(key: string, indexed: bool, metricsIndexed: bool, flattened: bool)

  datatype QueueRow = QueueRow(id: nat, createdAt: int, file: FileKey)

  datatype Mode = Deleted | History | NoBookkeeping

  /** How object keys are derived from the key of a data file. */
  datatype Layout = Layout(isWal: string -> bool, indexOf: string -> Option<string>,
                           metricsIndexOf: string -> Option<string>, flattenedOf: string -> string)

  function OptionSet(o: Option<string>): set<string> {
    if o.Some? then {o.value} else {}
  }

  datatype Kind = Data | InvertedIndex | MetricsIndex | Flattened

  /** The object of one kind that belongs to a data file, if there is one. */
  function ObjectOf(l: Layout, f: FileKey, kind: Kind): set<string> {
    match kind
    case Data => if l.isWal(f.key) then {} else {f.key}
    case InvertedIndex => if f.indexed then OptionSet(l.indexOf(f.key)) else {}
    case MetricsIndex => if f.metricsIndexed then OptionSet(l.metricsIndexOf(f.key)) else {}
    case Flattened => if f.flattened then {l.flattenedOf(f.key)} else {}
  }

  /** The store holds the object for the file: it is the data file itself, unless that is in the WAL, or
      the derived object of a kind that the file has. */
  predicate BelongsTo(l: Layout, f: FileKey, o: string) {
    || (!l.isWal(f.key) && o == f.key)
    || (f.indexed && l.indexOf(f.key) == Some(o))
    || (f.metricsIndexed && l.metricsIndexOf(f.key) == Some(o))
    || (f.flattened && o == l.flattenedOf(f.key))
  }

  /** Everything the store holds for a queued file. */
  function ObjectsOf(l: Layout, f: FileKey): (r: set<string>)
    ensures forall o :: o in r <==> BelongsTo(l, f, o)
  {
    ObjectOf(l, f, Data) + ObjectOf(l, f, InvertedIndex) + ObjectOf(l, f, MetricsIndex) + ObjectOf(l, f, Flattened)
  }

  function KeysOf(files: seq<FileKey>): set<string> {
    if files == [] then {} else KeysOf(files[..|files| - 1]) + {files[|files| - 1].key}
  }

  function RowsFor(files: seq<FileKey>, createdAt: int, firstId: nat): (rows: seq<QueueRow>)
    ensures |rows| == |files|
    ensures forall i :: 0 <= i < |rows| ==>
              rows[i].file == files[i] && rows[i].id == firstId + i && rows[i].createdAt == createdAt
  {
    if files == [] then []
    else RowsFor(files[..|files| - 1], createdAt, firstId) +
         [QueueRow(firstId + |files| - 1, createdAt, files[|files| - 1])]
  }

  /** Queue ids are unique, and a queued file is no longer in the file list. */
  ghost predicate QueueValid(queue: seq<QueueRow>, nextId: nat, fileList: set<string>) {
    && (forall i :: 0 <= i < |queue| ==> queue[i].id < nextId && queue[i].file.key !in fileList)
    && UniqueIds(queue)
  }

  lemma RowsForValid(queue: seq<QueueRow>, nextId: nat, fileList: set<string>, files: seq<FileKey>, createdAt: int)
    requires QueueValid(queue, nextId, fileList) && KeysOf(files) !! fileList
    ensures QueueValid(queue + RowsFor(files, createdAt, nextId), nextId + |files|, fileList)
  {
    var rows := RowsFor(files, createdAt, nextId);
    forall i | 0 <= i < |rows| ensures rows[i].file.key !in fileList {
      KeysOfMember(files, i);
    }
  }

  const INSERT_SIZE := 100

  class World {
    var fileList: set<string>
    var queue: seq<QueueRow>
    var nextId: nat
    var objects: set<string>
    /** The offset recorded for the delayed deletion. */
    var offset: int
    const layout: Layout
    /** Objects whose deletion fails; the store logs that and still reports success. */
    const stuck: set<string>
    /** No call reports a failure. */
    const reliable: bool
    /** The offset can always be written. */
    const writable: bool

    constructor (layout: Layout, stuck: set<string>, reliable: bool, writable: bool)
      ensures Valid() && queue == [] && fileList == {} && objects == {}
      ensures this.layout == layout && this.stuck == stuck && this.reliable == reliable && this.writable == writable
    {
      this.layout, this.stuck, this.reliable, this.writable := layout, stuck, reliable, writable;
      fileList, queue, nextId, objects, offset := {}, [], 0, {}, 0;
    }

    ghost predicate Valid() reads this {
      QueueValid(queue, nextId, fileList)
    }

    /** Whether a call fails; arbitrary, unless calls are reliable. */
    method Fails() returns (fails: bool)
      ensures reliable ==> !fails
    {
      fails := *;
      fails := fails && !reliable;
    }

    // ----- write_file_list -----

    method BatchProcess(files: seq<FileKey>) returns (ok: bool)
      requires Valid()
      modifies this`fileList
      ensures Valid() && fileList == if ok then old(fileList) - KeysOf(files) else old(fileList)
      ensures reliable ==> ok
    {
      var fails := Fails();
      if fails { return false; }
      fileList := fileList - KeysOf(files);
      ok := true;
    }

    /** One transaction of the insert. */
    method InsertRows(files: seq<FileKey>, createdAt: int) returns (ok: bool, ghost rows: seq<QueueRow>)
      requires Valid() && KeysOf(files) !! fileList
      modifies this`queue, this`nextId
      ensures Valid() && Appended(old(queue), queue, if ok then files else [], rows, createdAt)
      ensures reliable ==> ok
    {
      rows := [];
      var fails := Fails();
      if fails { return false, rows; }
      rows := RowsFor(files, createdAt, nextId);
      FilesOfRows(files, createdAt, nextId);
      RowsForValid(queue, nextId, fileList, files, createdAt);
      queue := queue + RowsFor(files, createdAt, nextId);
      nextId := nextId + |files|;
      ok := true;
    }

    /** Rows are inserted and committed a hundred at a time; a failure leaves the `n` first ones. */
    method BatchAddDeleted(files: seq<FileKey>, createdAt: int)
      returns (ok: bool, ghost n: nat, ghost rows: seq<QueueRow>)
      requires Valid() && KeysOf(files) !! fileList
      modifies this`queue, this`nextId
      ensures Valid() && n <= |files| && Appended(old(queue), queue, files[..n], rows, createdAt)
      ensures if ok then n == |files| else n < |files| && n % 100 == 0
      ensures reliable ==> ok
    {
      var at := 0;
      rows := [];
      while at < |files|
        invariant 0 <= at <= |files| && (at < |files| ==> at % INSERT_SIZE == 0)
        invariant Valid() && Appended(old(queue), queue, files[..at], rows, createdAt)
      {
        var end := if at + INSERT_SIZE <= |files| then at + INSERT_SIZE else |files|;
        SliceApart(files, at, end, fileList);
        NextChunk(at);
        ghost var queue1 := queue;
        var added;
        ghost var sent;
        added, sent := InsertRows(files[at..end], createdAt);
        if !added { return false, at, rows; }
        AppendedSlice(old(queue), queue1, queue, files, at, end, rows, sent, createdAt);
        rows, at := rows + sent, end;
      }
      ok, n := true, at;
    }

    /** One attempt for a chunk; an insert that fails may have queued the files `more`. */
    method Attempt(files: seq<FileKey>, createdAt: int, mode: Mode)
      returns (result: Result, ghost left: bool, ghost more: seq<FileKey>, ghost rows: seq<QueueRow>)
      requires Valid()
      modifies this`fileList, this`queue, this`nextId
      ensures Valid()
      ensures Written(old(fileList), fileList, old(queue), queue, When(left, files),
                      When(result.Done? && mode.Deleted?, files), more, rows, createdAt)
      ensures Repeats(more, When(left, files), mode, |files|, reliable)
      ensures (result.Done? ==> left && more == []) && (reliable ==> result.Done?)
    {
      left, more, rows := false, [], [];
      NothingWritten(fileList, queue, createdAt);
      if mode.History? {
        var fails := Fails();
        if fails { return Abort, left, more, rows; }       // batch_add_history failed
      }
      var processed := BatchProcess(files);
      if !processed { return Retry, left, more, rows; }
      left := true;
      if !mode.Deleted? { return Done, left, more, rows; }
      var added;
      ghost var n;
      added, n, rows := BatchAddDeleted(files, createdAt);
      more := if added then [] else files[..n];
      InsertWritten(old(queue), queue, files, n, added, rows, createdAt);
      result := if added then Done else Retry;
    }

    /** One chunk: up to five attempts; in Deleted mode a file is queued after it left the list, and
        attempts that failed may have queued the files `again` before. */
    method WriteChunk(files: seq<FileKey>, createdAt: int, mode: Mode)
      returns (ok: bool, ghost left: bool, ghost again: seq<FileKey>, ghost rows: seq<QueueRow>)
      requires Valid()
      modifies this`fileList, this`queue, this`nextId
      ensures Valid()
      ensures Written(old(fileList), fileList, old(queue), queue, When(left, files),
                      When(ok && mode.Deleted?, files), again, rows, createdAt)
      ensures Repeats(again, When(left, files), mode, |files|, reliable)
      ensures (ok ==> left) && (reliable ==> ok)
    {
      left, again, rows := false, [], [];
      for attempt := 0 to 5
        invariant Valid()
        invariant Written(old(fileList), fileList, old(queue), queue, When(left, files), [], again, rows, createdAt)
        invariant Repeats(again, When(left, files), mode, |files|, reliable)
        invariant attempt > 0 ==> !reliable
      {
        ghost var fileList1, queue1 := fileList, queue;
        var result;
        ghost var now, more, sent;
        result, now, more, sent := Attempt(files, createdAt, mode);
        AttemptStep(old(fileList), fileList1, fileList, old(queue), queue1, queue, again, rows, files, more, sent,
                    createdAt, left, now, result.Done? && mode.Deleted?);
        AttemptRepeats(again, more, files, left, now, mode, |files|, reliable);
        left, again, rows := left || now, again + more, rows + sent;
        if !result.Retry? { return result.Done?, left, again, rows; }
      }
      ok := false;
    }

    /** `write_file_list`: on success every file left the list and, in Deleted mode, is queued.  On
        failure the files of one chunk may have left without being queued.  The files `again` were
        queued once more by attempts that failed; there are none if a chunk is one transaction. */
    method WriteFileList(files: seq<FileKey>, batch: nat, createdAt: int, mode: Mode)
      returns (ok: bool, ghost gone: nat, ghost queued: nat, ghost again: seq<FileKey>, ghost rows: seq<QueueRow>)
      requires Valid()
      modifies this`fileList, this`queue, this`nextId
      ensures Valid()
      ensures queued <= gone <= |files| && (ok ==> queued == gone == |files|) && (reliable ==> ok)
      ensures gone <= queued + Max1(batch)
      ensures Written(old(fileList), fileList, old(queue), queue, files[..gone],
                      When(mode.Deleted?, files[..queued]), again, rows, createdAt)
      ensures Repeats(again, files[..gone], mode, batch, reliable)
    {
      gone, queued, again, rows := 0, 0, [], [];
      var at := 0;
      assert files[..0] == [];
      while at < |files|
        invariant 0 <= at == gone == queued <= |files| && Valid()
        invariant Written(old(fileList), fileList, old(queue), queue, files[..at],
                          When(mode.Deleted?, files[..at]), again, rows, createdAt)
        invariant Repeats(again, files[..at], mode, batch, reliable)
      {
        var end := if at + Max1(batch) <= |files| then at + Max1(batch) else |files|;
        ghost var fileList1, queue1 := fileList, queue;
        var done;
        ghost var left, more, sent;
        done, left, more, sent := WriteChunk(files[at..end], createdAt, mode);
        ChunkStep(files, at, end, old(fileList), fileList1, fileList, old(queue), queue1, queue, mode,
                  again, more, rows, sent, createdAt, done, left);
        ChunkRepeats(files, at, end, again, more, mode, batch, reliable, left);
        again, rows := again + more, rows + sent;
        if !done {
          gone := if left then end else at;
          return false, gone, queued, again, rows;
        }
        at, gone, queued := end, end, end;
      }
      ok := true;
    }

    // ----- deleted::delete and the drain loop -----

    /** The store removes what it can and reports success; a call that does fail has still
        removed some of its objects. */
    method DeleteFromStorage(keys: set<string>) returns (ok: bool)
      modifies this`objects
      ensures ok ==> objects == old(objects) - (keys - stuck)
      ensures objects <= old(objects) && old(objects) - objects <= keys - stuck
      ensures reliable ==> ok
    {
      var fails := Fails();
      if fails {
        var removed: set<string> :| removed <= keys - stuck;
        objects := objects - removed;
        return false;
      }
      objects := objects - (keys - stuck);
      ok := true;
    }

    /** Data files, then the derived objects of each kind; the first failed call stops the batch. */
    method DeleteObjects(rows: seq<QueueRow>) returns (ok: bool)
      modifies this`objects
      ensures ok ==> objects == old(objects) - (AllKeys(layout, rows) - stuck)
      ensures objects <= old(objects) && old(objects) - objects <= AllKeys(layout, rows) - stuck
      ensures reliable ==> ok
    {
      AllKeysByKind(layout, rows);
      var data, index := KeysOfKind(layout, rows, Data), KeysOfKind(layout, rows, InvertedIndex);
      var metrics, flat := KeysOfKind(layout, rows, MetricsIndex), KeysOfKind(layout, rows, Flattened);
      ghost var o1 := objects;
      ok := DeleteFromStorage(data);
      Removed(o1, o1, objects, {}, data, stuck);
      if !ok { return; }
      ghost var o2 := objects;
      ok := DeleteFromStorage(index);
      Removed(o1, o2, objects, data, index, stuck);
      if !ok { return; }
      ghost var o3 := objects;
      ok := DeleteFromStorage(metrics);
      Removed(o1, o3, objects, data + index, metrics, stuck);
      if !ok { return; }
      ghost var o4 := objects;
      ok := DeleteFromStorage(flat);
      Removed(o1, o4, objects, data + index + metrics, flat, stuck);
    }

    /** One batch of the delayed deletion.  Objects go before their queue rows, and only objects of
        files that have left the file list go at all. */
    method Delete(timeMax: int) returns (ok: bool, affected: nat)
      requires Valid()
      modifies this`objects, this`queue
      ensures Valid()
      ensures OnlyQueuedObjects(layout, old(objects), objects, old(queue), fileList, timeMax)
      ensures RowsAfterObjects(layout, old(queue), queue, old(objects), objects, stuck, timeMax)
      ensures ok && affected == 0 ==> queue == old(queue) && QueryDeleted(queue, timeMax) == []
      ensures ok && affected > 0 ==> |queue| < |old(queue)|
      ensures reliable ==> ok
    {
      var rows := QueryDeleted(queue, timeMax);
      QueryMembers(queue, timeMax);
      if rows == [] { return true, 0; }
      affected := |rows|;
      ok := DeleteObjects(rows);
      RemovedWereQueued(layout, rows, old(objects), objects, queue, fileList, timeMax);
      if !ok { return; }
      ghost var queue0 := queue;
      ghost var gone: set<QueueRow>;
      ok, gone := BatchRemoveDeleted(rows);
      WithoutMembers(queue0, gone);
      assert rows[0] in queue0;
      assert forall r :: r in queue0 && r !in queue ==> r in rows;
      ObjectsGone(layout, rows, old(objects), objects, stuck);
    }

    /** The drain loop for one organization: it ends, and when nothing failed no eligible row is
        left. */
    method Drain(timeMax: int) returns (ok: bool)
      requires Valid()
      modifies this`objects, this`queue
      ensures Valid()
      ensures OnlyQueuedObjects(layout, old(objects), objects, old(queue), fileList, timeMax)
      ensures RowsAfterObjects(layout, old(queue), queue, old(objects), objects, stuck, timeMax)
      ensures ok && timeMax != 0 ==> forall r :: r in queue ==> r.createdAt >= timeMax
      ensures reliable ==> ok
    {
      while true
        invariant Valid()
        invariant OnlyQueuedObjects(layout, old(objects), objects, old(queue), fileList, timeMax)
        invariant RowsAfterObjects(layout, old(queue), queue, old(objects), objects, stuck, timeMax)
        decreases |queue|
      {
        ghost var queue1, objects1 := queue, objects;
        var affected;
        ok, affected := Delete(timeMax);
        Chain(layout, old(queue), queue1, queue, old(objects), objects1, objects, fileList, stuck, timeMax);
        if !ok { return; }
        if affected == 0 {
          QueryMembers(queue, timeMax);
          return;
        }
      }
    }

    /** The delayed deletion of one organization: the offset is written after the drain loop, also
        when a batch failed and eligible rows are left. */
    method RunDelayDeletion(timeMax: int) returns (ok: bool, ghost drained: bool)
      requires Valid()
      modifies this`objects, this`queue, this`offset
      ensures Valid()
      ensures OnlyQueuedObjects(layout, old(objects), objects, old(queue), fileList, timeMax)
      ensures RowsAfterObjects(layout, old(queue), queue, old(objects), objects, stuck, timeMax)
      ensures offset == if ok then timeMax else old(offset)
      ensures drained && timeMax != 0 ==> forall r :: r in queue ==> r.createdAt >= timeMax
      ensures (writable ==> ok) && (reliable ==> drained)
    {
      var done := Drain(timeMax);
      drained := done;
      var fails := *;
      if fails && !writable { return false, drained; }
      offset := timeMax;
      ok := true;
    }

    /** Rows are removed by id, in chunks; a failure leaves some of them. */
    method BatchRemoveDeleted(rows: seq<QueueRow>) returns (ok: bool, ghost gone: set<QueueRow>)
      requires Valid()
      modifies this`queue
      ensures Valid()
      ensures queue == Without(old(queue), gone)
      ensures gone <= (set r | r in rows) && (ok ==> gone == set r | r in rows)
      ensures reliable ==> ok
    {
      var chosen := set r | r in rows;
      ok := true;
      var fails := Fails();
      if fails {
        ok := false;
        chosen := *;
        chosen := chosen * (set r | r in rows);
      }
      gone := chosen;
      WithoutMembers(queue, chosen);
      WithoutUnique(queue, chosen);
      queue := Without(queue, chosen);
      forall i | 0 <= i < |queue| ensures queue[i] in old(queue) {
      }
    }
  }

  datatype Result = Done | Retry | Abort

  /** The rows are appended to the queue, one for each of the files. */
  ghost predicate Appended(queue0: seq<QueueRow>, queue: seq<QueueRow>, files: seq<FileKey>, rows: seq<QueueRow>,
                           createdAt: int)
  {
    queue == queue0 + rows && FilesOf(rows) == files && CreatedThen(rows, createdAt)
  }

  ghost predicate CreatedThen(rows: seq<QueueRow>, createdAt: int) {
    forall i :: 0 <= i < |rows| ==> rows[i].createdAt == createdAt
  }

  lemma AppendedConcat(queue0: seq<QueueRow>, queue1: seq<QueueRow>, queue2: seq<QueueRow>, files1: seq<FileKey>,
                       rows1: seq<QueueRow>, files2: seq<FileKey>, rows2: seq<QueueRow>, createdAt: int)
    requires Appended(queue0, queue1, files1, rows1, createdAt) && Appended(queue1, queue2, files2, rows2, createdAt)
    ensures Appended(queue0, queue2, files1 + files2, rows1 + rows2, createdAt)
  {
    FilesOfConcat(rows1, rows2);
    assert queue0 + rows1 + rows2 == queue0 + (rows1 + rows2);
  }

  lemma AppendedSlice(queue0: seq<QueueRow>, queue1: seq<QueueRow>, queue2: seq<QueueRow>, files: seq<FileKey>, at: nat,
                      end: nat, rows: seq<QueueRow>, sent: seq<QueueRow>, createdAt: int)
    requires at <= end <= |files|
    requires Appended(queue0, queue1, files[..at], rows, createdAt)
    requires Appended(queue1, queue2, files[at..end], sent, createdAt)
    ensures Appended(queue0, queue2, files[..end], rows + sent, createdAt)
  {
    AppendedConcat(queue0, queue1, queue2, files[..at], rows, files[at..end], sent, createdAt);
    assert files[..end] == files[..at] + files[at..end];
  }

  lemma NextChunk(at: nat)
    requires at % INSERT_SIZE == 0
    ensures (at + INSERT_SIZE) % INSERT_SIZE == 0
  {
  }

  lemma SliceApart(files: seq<FileKey>, at: nat, end: nat, fileList: set<string>)
    requires at <= end <= |files| && KeysOf(files) !! fileList
    ensures KeysOf(files[at..end]) !! fileList
  {
    KeysOfSlice(files, at, end);
  }

  /** The files are `queued`, in order, and `again` besides. */
  ghost predicate HoldsFiles(files: seq<FileKey>, queued: seq<FileKey>, again: seq<FileKey>) {
    multiset(files) == multiset(queued) + multiset(again) && (again == [] ==> files == queued)
  }

  lemma HoldsConcat(files1: seq<FileKey>, queued1: seq<FileKey>, again1: seq<FileKey>,
                    files2: seq<FileKey>, queued2: seq<FileKey>, again2: seq<FileKey>)
    requires HoldsFiles(files1, queued1, again1) && HoldsFiles(files2, queued2, again2)
    ensures HoldsFiles(files1 + files2, queued1 + queued2, again1 + again2)
  {
  }

  /** The files that left the list, and the rows that were added to the queue: one for each file of
      `queued`, and one for each of `again`. */
  ghost predicate Written(list0: set<string>, list: set<string>, queue0: seq<QueueRow>, queue: seq<QueueRow>,
                          gone: seq<FileKey>, queued: seq<FileKey>, again: seq<FileKey>, rows: seq<QueueRow>,
                          createdAt: int)
  {
    && list == list0 - KeysOf(gone)
    && Appended(queue0, queue, FilesOf(rows), rows, createdAt) && HoldsFiles(FilesOf(rows), queued, again)
  }

  /** Only files that left the list are queued again, and only when a chunk takes several
      transactions and calls may fail. */
  ghost predicate Repeats(again: seq<FileKey>, gone: seq<FileKey>, mode: Mode, batch: nat, reliable: bool) {
    && (forall f :: f in again ==> f in gone)
    && (again != [] ==> mode.Deleted? && batch > 100 && !reliable)
  }

  lemma WrittenConcat(list0: set<string>, list1: set<string>, list2: set<string>,
                      queue0: seq<QueueRow>, queue1: seq<QueueRow>, queue2: seq<QueueRow>,
                      gone1: seq<FileKey>, gone2: seq<FileKey>, queued1: seq<FileKey>, queued2: seq<FileKey>,
                      again1: seq<FileKey>, again2: seq<FileKey>, rows1: seq<QueueRow>, rows2: seq<QueueRow>,
                      createdAt: int)
    requires Written(list0, list1, queue0, queue1, gone1, queued1, again1, rows1, createdAt)
    requires Written(list1, list2, queue1, queue2, gone2, queued2, again2, rows2, createdAt)
    ensures Written(list0, list2, queue0, queue2, gone1 + gone2, queued1 + queued2, again1 + again2, rows1 + rows2,
                    createdAt)
  {
    KeysOfConcat(gone1, gone2);
    AppendedConcat(queue0, queue1, queue2, FilesOf(rows1), rows1, FilesOf(rows2), rows2, createdAt);
    HoldsConcat(FilesOf(rows1), queued1, again1, FilesOf(rows2), queued2, again2);
  }

  lemma NothingWritten(list: set<string>, queue: seq<QueueRow>, createdAt: int)
    ensures Written(list, list, queue, queue, [], [], [], [], createdAt)
  {
  }

  /** An insert queues all files, or some of them too early. */
  lemma InsertWritten(queue0: seq<QueueRow>, queue: seq<QueueRow>, files: seq<FileKey>, n: nat, added: bool,
                      rows: seq<QueueRow>, createdAt: int)
    requires n <= |files| && Appended(queue0, queue, files[..n], rows, createdAt) && (added ==> n == |files|)
    ensures Appended(queue0, queue, FilesOf(rows), rows, createdAt)
    ensures HoldsFiles(FilesOf(rows), When(added, files), if added then [] else files[..n])
  {
    assert n == |files| ==> files[..n] == files;
  }

  /** Files that have left the list leave it once. */
  lemma GoneTwice(list0: set<string>, list: set<string>, queue0: seq<QueueRow>, queue: seq<QueueRow>,
                  files: seq<FileKey>, queued: seq<FileKey>, again: seq<FileKey>, rows: seq<QueueRow>, createdAt: int)
    requires Written(list0, list, queue0, queue, files + files, queued, again, rows, createdAt)
    ensures Written(list0, list, queue0, queue, files, queued, again, rows, createdAt)
  {
    KeysOfConcat(files, files);
  }

  function When(b: bool, files: seq<FileKey>): seq<FileKey> {
    if b then files else []
  }

  /** One more attempt for a chunk, after `left` and before `left || now`. */
  lemma AttemptStep(list0: set<string>, list1: set<string>, list2: set<string>, queue0: seq<QueueRow>,
                    queue1: seq<QueueRow>, queue2: seq<QueueRow>, again: seq<FileKey>, rows: seq<QueueRow>,
                    files: seq<FileKey>, more: seq<FileKey>, sent: seq<QueueRow>, createdAt: int,
                    left: bool, now: bool, queued: bool)
    requires Written(list0, list1, queue0, queue1, When(left, files), [], again, rows, createdAt)
    requires Written(list1, list2, queue1, queue2, When(now, files), When(queued, files), more, sent, createdAt)
    ensures Written(list0, list2, queue0, queue2, When(left || now, files), When(queued, files), again + more,
                    rows + sent, createdAt)
  {
    var none: seq<FileKey> := [];
    assert none + When(queued, files) == When(queued, files);
    assert none + files == files && files + none == files && none + none == none;
    WrittenConcat(list0, list1, list2, queue0, queue1, queue2, When(left, files), When(now, files), none,
                  When(queued, files), again, more, rows, sent, createdAt);
    if left && now {
      GoneTwice(list0, list2, queue0, queue2, files, When(queued, files), again + more, rows + sent, createdAt);
    }
  }

  lemma AttemptRepeats(again: seq<FileKey>, more: seq<FileKey>, files: seq<FileKey>, left: bool, now: bool, mode: Mode,
                       batch: nat, reliable: bool)
    requires Repeats(again, When(left, files), mode, batch, reliable)
    requires Repeats(more, When(now, files), mode, batch, reliable)
    ensures Repeats(again + more, When(left || now, files), mode, batch, reliable)
  {
  }

  lemma ChunkStep(files: seq<FileKey>, at: nat, end: nat, list0: set<string>, list1: set<string>, list2: set<string>,
                  queue0: seq<QueueRow>, queue1: seq<QueueRow>, queue2: seq<QueueRow>, mode: Mode,
                  again: seq<FileKey>, more: seq<FileKey>, rows: seq<QueueRow>, sent: seq<QueueRow>,
                  createdAt: int, ok: bool, left: bool)
    requires at <= end <= |files| && (ok ==> left)
    requires Written(list0, list1, queue0, queue1, files[..at], When(mode.Deleted?, files[..at]), again, rows,
                     createdAt)
    requires Written(list1, list2, queue1, queue2, When(left, files[at..end]),
                     When(ok && mode.Deleted?, files[at..end]), more, sent, createdAt)
    ensures Written(list0, list2, queue0, queue2, files[..if left then end else at],
                    When(mode.Deleted?, files[..if ok then end else at]), again + more, rows + sent, createdAt)
  {
    var chunk := files[at..end];
    var none: seq<FileKey> := [];
    assert files[..end] == files[..at] + chunk;
    assert files[..at] + none == files[..at];
    assert none + none == none;
    WrittenConcat(list0, list1, list2, queue0, queue1, queue2, files[..at], When(left, chunk),
                  When(mode.Deleted?, files[..at]), When(ok && mode.Deleted?, chunk), again, more, rows, sent,
                      createdAt);
  }

  lemma ChunkRepeats(files: seq<FileKey>, at: nat, end: nat, again: seq<FileKey>, more: seq<FileKey>, mode: Mode,
                     batch: nat, reliable: bool, left: bool)
    requires at <= end <= |files| && end <= at + Max1(batch)
    requires Repeats(again, files[..at], mode, batch, reliable)
    requires Repeats(more, When(left, files[at..end]), mode, end - at, reliable)
    ensures Repeats(again + more, files[..if left then end else at], mode, batch, reliable)
  {
    assert files[..end] == files[..at] + files[at..end];
  }

  function Max1(n: nat): nat { if n == 0 then 1 else n }

  // ----- The delayed deletion -----

  const BATCH_SIZE := 10000

  function KeysOfKind(l: Layout, rows: seq<QueueRow>, kind: Kind): set<string> {
    if rows == [] then {} else KeysOfKind(l, rows[..|rows| - 1], kind) + ObjectOf(l, rows[|rows| - 1].file, kind)
  }

  function AllKeys(l: Layout, rows: seq<QueueRow>): set<string> {
    if rows == [] then {} else AllKeys(l, rows[..|rows| - 1]) + ObjectsOf(l, rows[|rows| - 1].file)
  }

  lemma {:induction false} AllKeysByKind(l: Layout, rows: seq<QueueRow>)
    ensures AllKeys(l, rows) == KeysOfKind(l, rows, Data) + KeysOfKind(l, rows, InvertedIndex) +
                                KeysOfKind(l, rows, MetricsIndex) + KeysOfKind(l, rows, Flattened)
  {
    if rows != [] {
      AllKeysByKind(l, rows[..|rows| - 1]);
    }
  }

  lemma Removed(o0: set<string>, o1: set<string>, o2: set<string>, done: set<string>, keys: set<string>,
                stuck: set<string>)
    requires o1 == o0 - (done - stuck) && o2 <= o1 && o1 - o2 <= keys - stuck
    ensures o2 <= o0 && o0 - o2 <= (done + keys) - stuck
    ensures o2 == o1 - (keys - stuck) ==> o2 == o0 - ((done + keys) - stuck)
  {
    forall x | x in o0 && x !in o2 ensures x in (done + keys) - stuck {
      if x in o1 { assert x in o1 - o2; }
    }
  }

  lemma {:induction false} AllKeysMember(l: Layout, rows: seq<QueueRow>, o: string)
    ensures o in AllKeys(l, rows) <==> exists r :: r in rows && o in ObjectsOf(l, r.file)
  {
    if rows != [] {
      var front, last := rows[..|rows| - 1], rows[|rows| - 1];
      assert rows == front + [last];
      AllKeysMember(l, front, o);
    }
  }

  /** An object was removed only for a queued, old enough row whose file has left the file list. */
  ghost predicate OnlyQueuedObjects(l: Layout, before: set<string>, after: set<string>, queue: seq<QueueRow>,
                                    fileList: set<string>, timeMax: int)
  {
    after <= before &&
    forall o :: o in before && o !in after ==> QueuedFor(l, o, queue, fileList, timeMax)
  }

  ghost predicate QueuedFor(l: Layout, o: string, queue: seq<QueueRow>, fileList: set<string>, timeMax: int) {
    exists r :: r in queue && r.createdAt < timeMax && o in ObjectsOf(l, r.file) && r.file.key !in fileList
  }

  /** No object belongs to two data files. */
  ghost predicate SeparateObjects(l: Layout) {
    forall f: FileKey, g: FileKey :: f.key != g.key ==> ObjectsOf(l, f) !! ObjectsOf(l, g)
  }

  /** No object of a file that is still in the file list is ever removed. */
  lemma ListedObjectsStay(l: Layout, before: set<string>, after: set<string>, queue: seq<QueueRow>,
                          fileList: set<string>, timeMax: int, f: FileKey)
    requires SeparateObjects(l) && OnlyQueuedObjects(l, before, after, queue, fileList, timeMax) && f.key in fileList
    ensures ObjectsOf(l, f) * before <= after
  {
    forall o | o in ObjectsOf(l, f) ensures !QueuedFor(l, o, queue, fileList, timeMax) {
      forall r | r in queue && r.file.key !in fileList ensures o !in ObjectsOf(l, r.file) {
        assert r.file.key != f.key;
      }
    }
  }

  /** A row was removed only after all its objects that the store can delete were gone: what is left
      of them is exactly what the store failed to delete. */
  ghost predicate RowsAfterObjects(l: Layout, queue0: seq<QueueRow>, queue: seq<QueueRow>, before: set<string>,
                                   after: set<string>, stuck: set<string>, timeMax: int)
  {
    && (forall r :: r in queue ==> r in queue0)
    && before * stuck <= after <= before
    && (forall r :: r in queue0 && r !in queue ==> r.createdAt < timeMax && ObjectsOf(l, r.file) * after <= stuck)
  }

  /** The promise that a row goes only after its objects holds exactly when the store can delete
      every object of the row that is still there. */
  lemma RowGoneIffNothingStuck(l: Layout, queue0: seq<QueueRow>, queue: seq<QueueRow>, before: set<string>,
                               after: set<string>, stuck: set<string>, timeMax: int, r: QueueRow)
    requires RowsAfterObjects(l, queue0, queue, before, after, stuck, timeMax)
    requires r in queue0 && r !in queue
    ensures ObjectsOf(l, r.file) !! after <==> ObjectsOf(l, r.file) * before !! stuck
  {
    assert ObjectsOf(l, r.file) * after <= stuck;
    if x :| x in ObjectsOf(l, r.file) && x in before && x in stuck {
      assert x in before * stuck && x in after;
    }
    if x :| x in ObjectsOf(l, r.file) && x in after {
      assert x in ObjectsOf(l, r.file) * after && x in stuck;
    }
  }

  /** What the two properties of the delayed deletion say, spelled out.  When a row is gone and none of
      its objects was stuck, neither its data file nor any derived object is left. */
  lemma GoneRowLeavesNothing(l: Layout, queue0: seq<QueueRow>, queue: seq<QueueRow>, before: set<string>,
                             after: set<string>, stuck: set<string>, timeMax: int, r: QueueRow)
    requires RowsAfterObjects(l, queue0, queue, before, after, stuck, timeMax)
    requires r in queue0 && r !in queue
    requires forall o :: BelongsTo(l, r.file, o) && o in before ==> o !in stuck
    ensures var f := r.file;
            && (f.key in after ==> l.isWal(f.key))
            && (f.indexed && l.indexOf(f.key).Some? ==> l.indexOf(f.key).value !in after)
            && (f.metricsIndexed && l.metricsIndexOf(f.key).Some? ==> l.metricsIndexOf(f.key).value !in after)
            && (f.flattened ==> l.flattenedOf(f.key) !in after)
  {
    var f := r.file;
    RowGoneIffNothingStuck(l, queue0, queue, before, after, stuck, timeMax, r);
    forall o | BelongsTo(l, f, o) ensures o !in after {
      assert o in ObjectsOf(l, f);
    }
    assert f.indexed && l.indexOf(f.key).Some? ==> BelongsTo(l, f, l.indexOf(f.key).value);
    assert f.metricsIndexed && l.metricsIndexOf(f.key).Some? ==> BelongsTo(l, f, l.metricsIndexOf(f.key).value);
  }

  /** And an object that is gone is the data file, or a derived object of a kind that the file has, of an
      old queued row whose file had left the file list. */
  lemma RemovedObjectIsNamed(l: Layout, before: set<string>, after: set<string>, queue: seq<QueueRow>,
                             fileList: set<string>, timeMax: int, o: string)
    requires OnlyQueuedObjects(l, before, after, queue, fileList, timeMax) && o in before && o !in after
    ensures exists r :: r in queue && r.createdAt < timeMax && r.file.key !in fileList &&
              var f := r.file;
              || (!l.isWal(f.key) && o == f.key)
              || (f.indexed && l.indexOf(f.key) == Some(o))
              || (f.metricsIndexed && l.metricsIndexOf(f.key) == Some(o))
              || (f.flattened && o == l.flattenedOf(f.key))
  {
    assert QueuedFor(l, o, queue, fileList, timeMax);
    var r :| r in queue && r.createdAt < timeMax && o in ObjectsOf(l, r.file) && r.file.key !in fileList;
    assert BelongsTo(l, r.file, o);
  }

  /** Such a run: the only object of a file cannot be deleted, no call reports a failure, and in the
      end the queue is empty while the object stays. */
  method StuckObjectOutlivesRow() returns (world: World, row: QueueRow)
    ensures fresh(world) && world.queue == [] && world.reliable
    ensures "f" in ObjectsOf(world.layout, row.file) && "f" in world.objects && "f" !in world.fileList
    ensures row.file.key == "f" && row.createdAt == 5
  {
    var layout := Layout(_ => false, _ => None, _ => None, k => k);
    world := new World(layout, {"f"}, true, true);
    world.fileList, world.objects := {"f"}, {"f"};
    var file := FileKey("f", false, false, false);
    var ok;
    ghost var gone, queued, again, rows;
    ok, gone, queued, again, rows := world.WriteFileList([file], 1, 5, Deleted);
    assert [file][..1] == [file];
    OneRow(rows, file);
    row := world.queue[0];
    ghost var before := world.queue;
    ok := world.Drain(10);
    assert forall r :: r in world.queue ==> r in before;
    HasRow(world.queue);
  }

  lemma HasRow(rows: seq<QueueRow>)
    ensures rows != [] ==> exists r :: r in rows
  {
    if rows != [] { assert rows[0] in rows; }
  }

  lemma {:induction false} FilesOfLength(rows: seq<QueueRow>)
    ensures |FilesOf(rows)| == |rows|
  {
    if rows != [] { FilesOfLength(rows[..|rows| - 1]); }
  }

  lemma OneRow(rows: seq<QueueRow>, file: FileKey)
    requires FilesOf(rows) == [file]
    ensures |rows| == 1 && rows[0].file == file
  {
    FilesOfLength(rows);
  }

  lemma RemovedWereQueued(l: Layout, rows: seq<QueueRow>, before: set<string>, after: set<string>,
                          queue: seq<QueueRow>, fileList: set<string>, timeMax: int)
    requires after <= before && before - after <= AllKeys(l, rows)
    requires forall r :: r in rows ==> r in queue && r.createdAt < timeMax
    requires forall i :: 0 <= i < |queue| ==> queue[i].file.key !in fileList
    ensures OnlyQueuedObjects(l, before, after, queue, fileList, timeMax)
  {
    forall o | o in before && o !in after ensures QueuedFor(l, o, queue, fileList, timeMax) {
      AllKeysMember(l, rows, o);
    }
  }

  lemma ObjectsGone(l: Layout, rows: seq<QueueRow>, before: set<string>, after: set<string>, stuck: set<string>)
    requires after == before - (AllKeys(l, rows) - stuck)
    ensures forall r :: r in rows ==> ObjectsOf(l, r.file) * after <= stuck
  {
    forall r, o | r in rows && o in ObjectsOf(l, r.file) ensures o in AllKeys(l, rows) {
      AllKeysMember(l, rows, o);
    }
  }

  lemma Chain(l: Layout, q0: seq<QueueRow>, q1: seq<QueueRow>, q2: seq<QueueRow>,
              o0: set<string>, o1: set<string>, o2: set<string>, fileList: set<string>, stuck: set<string>,
              timeMax: int)
    requires OnlyQueuedObjects(l, o0, o1, q0, fileList, timeMax) && OnlyQueuedObjects(l, o1, o2, q1, fileList, timeMax)
    requires RowsAfterObjects(l, q0, q1, o0, o1, stuck, timeMax) && RowsAfterObjects(l, q1, q2, o1, o2, stuck, timeMax)
    ensures OnlyQueuedObjects(l, o0, o2, q0, fileList, timeMax)
    ensures RowsAfterObjects(l, q0, q2, o0, o2, stuck, timeMax)
  {
    forall o | o in o0 && o !in o2 ensures QueuedFor(l, o, q0, fileList, timeMax) {
      if o in o1 {
        assert QueuedFor(l, o, q1, fileList, timeMax);
      }
    }
  }

  function CreatedAt(row: QueueRow): int { row.createdAt }

  function Eligible(queue: seq<QueueRow>, timeMax: int): seq<QueueRow> {
    if queue == [] then []
    else
      Eligible(queue[..|queue| - 1], timeMax) +
      (if queue[|queue| - 1].createdAt < timeMax then [queue[|queue| - 1]] else [])
  }

  /** The oldest eligible rows, at most one batch; a zero time asks for nothing. */
  function QueryDeleted(queue: seq<QueueRow>, timeMax: int): seq<QueueRow> {
    var rows := SortBy(Eligible(queue, timeMax), CreatedAt);
    if timeMax == 0 then [] else if |rows| <= BATCH_SIZE then rows else rows[..BATCH_SIZE]
  }

  function Without(queue: seq<QueueRow>, rows: set<QueueRow>): seq<QueueRow> {
    if queue == [] then []
    else
      Without(queue[..|queue| - 1], rows) +
      (if queue[|queue| - 1] in rows then [] else [queue[|queue| - 1]])
  }

  lemma {:induction false} EligibleMembers(queue: seq<QueueRow>, timeMax: int)
    ensures forall r :: r in Eligible(queue, timeMax) <==> r in queue && r.createdAt < timeMax
  {
    if queue != [] {
      EligibleMembers(queue[..|queue| - 1], timeMax);
      assert queue == queue[..|queue| - 1] + [queue[|queue| - 1]];
    }
  }

  lemma QueryMembers(queue: seq<QueueRow>, timeMax: int)
    ensures forall r :: r in QueryDeleted(queue, timeMax) ==> r in queue && r.createdAt < timeMax
    ensures QueryDeleted(queue, timeMax) == [] && timeMax != 0 ==> forall r :: r in queue ==> r.createdAt >= timeMax
  {
    EligibleMembers(queue, timeMax);
    SortBySound(Eligible(queue, timeMax), CreatedAt);
  }

  /** The batch holds the oldest eligible rows: the first ten thousand in order of creation. */
  lemma QueryOldest(queue: seq<QueueRow>, timeMax: int) returns (rest: seq<QueueRow>)
    requires timeMax != 0
    ensures var rows, all := QueryDeleted(queue, timeMax), Eligible(queue, timeMax);
            && multiset(rows + rest) == multiset(all)
            && (forall i, j :: 0 <= i < j < |rows + rest| ==> (rows + rest)[i].createdAt <= (rows + rest)[j].createdAt)
            && |rows| <= 10000 && (rest != [] ==> |rows| == 10000)
    ensures forall r :: r in Eligible(queue, timeMax) <==> r in queue && r.createdAt < timeMax
    ensures QueryDeleted(queue, 0) == []
  {
    EligibleMembers(queue, timeMax);
    var all := Eligible(queue, timeMax);
    var sorted, rows := SortBy(all, CreatedAt), QueryDeleted(queue, timeMax);
    SortBySound(all, CreatedAt);
    rest := sorted[|rows|..];
    assert rows + rest == sorted;
    forall i, j | 0 <= i < j < |sorted| ensures sorted[i].createdAt <= sorted[j].createdAt {
      assert CreatedAt(sorted[i]) <= CreatedAt(sorted[j]);
    }
  }

  lemma {:induction false} WithoutMembers(queue: seq<QueueRow>, rows: set<QueueRow>)
    ensures forall r :: r in Without(queue, rows) <==> r in queue && r !in rows
    ensures |Without(queue, rows)| <= |queue|
    ensures (exists r :: r in queue && r in rows) ==> |Without(queue, rows)| < |queue|
  {
    if queue != [] {
      WithoutMembers(queue[..|queue| - 1], rows);
      assert queue == queue[..|queue| - 1] + [queue[|queue| - 1]];
    }
  }

  ghost predicate UniqueIds(queue: seq<QueueRow>) {
    forall i, j :: 0 <= i < j < |queue| ==> queue[i].id != queue[j].id
  }

  lemma {:induction false} WithoutUnique(queue: seq<QueueRow>, rows: set<QueueRow>)
    requires UniqueIds(queue)
    ensures UniqueIds(Without(queue, rows))
  {
    if queue != [] {
      var front := queue[..|queue| - 1];
      WithoutUnique(front, rows);
      WithoutMembers(front, rows);
      forall r | r in Without(front, rows) ensures r.id != queue[|queue| - 1].id {
        var i :| 0 <= i < |front| && front[i] == r;
      }
    }
  }

  function FilesOf(rows: seq<QueueRow>): seq<FileKey> {
    if rows == [] then [] else FilesOf(rows[..|rows| - 1]) + [rows[|rows| - 1].file]
  }

  lemma {:induction false} FilesOfRows(files: seq<FileKey>, createdAt: int, firstId: nat)
    ensures FilesOf(RowsFor(files, createdAt, firstId)) == files
  {
    if files != [] {
      var rows := RowsFor(files, createdAt, firstId);
      FilesOfRows(files[..|files| - 1], createdAt, firstId);
      assert rows[..|rows| - 1] == RowsFor(files[..|files| - 1], createdAt, firstId);
    }
  }

  lemma {:induction false} FilesOfConcat(a: seq<QueueRow>, b: seq<QueueRow>)
    ensures FilesOf(a + b) == FilesOf(a) + FilesOf(b)
    decreases |b|
  {
    if b == [] {
      assert a + b == a;
    } else {
      FilesOfConcat(a, b[..|b| - 1]);
      assert (a + b)[..|a + b| - 1] == a + b[..|b| - 1];
    }
  }

  lemma {:induction false} KeysOfConcat(a: seq<FileKey>, b: seq<FileKey>)
    ensures KeysOf(a + b) == KeysOf(a) + KeysOf(b)
    decreases |b|
  {
    if b == [] {
      assert a + b == a;
    } else {
      KeysOfConcat(a, b[..|b| - 1]);
      assert (a + b)[..|a + b| - 1] == a + b[..|b| - 1];
    }
  }

  lemma KeysOfSlice(files: seq<FileKey>, at: nat, end: nat)
    requires at <= end <= |files|
    ensures KeysOf(files[at..end]) <= KeysOf(files)
  {
    assert files == files[..at] + files[at..end] + files[end..];
    KeysOfConcat(files[..at] + files[at..end], files[end..]);
    KeysOfConcat(files[..at], files[at..end]);
  }

  /** The keys of the files, and no others. */
  lemma {:induction false} KeysOfExact(files: seq<FileKey>, k: string)
    ensures k in KeysOf(files) <==> exists i :: 0 <= i < |files| && files[i].key == k
  {
    if files != [] {
      var front := files[..|files| - 1];
      KeysOfExact(front, k);
      assert forall i :: 0 <= i < |front| ==> front[i] == files[i];
    }
  }

  lemma {:induction false} KeysOfMember(files: seq<FileKey>, i: nat)
    requires i < |files|
    ensures files[i].key in KeysOf(files)
    decreases |files|
  {
    if i < |files| - 1 {
      KeysOfMember(files[..|files| - 1], i);
    }
  }
}
