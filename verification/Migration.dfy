/** The copy phase of the migrator: paginated reads, row-by-row upserts, table by table in the
    order of `TableSort`.  A `DbAdapter` keeps its rows in a fixed order, and an upsert overwrites
    by primary key. */
module Migration {
  import opened TableSort

  datatype Ref = Ref(table: string, key: string)
  datatype Row = Row(key: string, parents: set<Ref>, payload: string)
  datatype Write = Write(table: string, row: Row)

  type Source = map<string, seq<Row>>
  type Database = map<string, map<string, Row>>

  function Put(db: Database, w: Write): Database {
    db[w.table := (if w.table in db then db[w.table] else map[])[w.row.key := w.row]]
  }

  function Replay(db: Database, log: seq<Write>): Database {
    if log == [] then db else Put(Replay(db, log[..|log| - 1]), log[|log| - 1])
  }

  function Writes(table: string, rows: seq<Row>): seq<Write> {
    seq(|rows|, i requires 0 <= i < |rows| => Write(table, rows[i]))
  }

  /** Every write of a complete copy, in order. */
  ghost function FullLog(source: Source, order: seq<string>): seq<Write>
    requires forall t :: t in order ==> t in source
  {
    if order == [] then []
    else
      var front := order[..|order| - 1];
      assert forall t :: t in front ==> t in order;
      FullLog(source, front) + Writes(order[|order| - 1], source[order[|order| - 1]])
  }

  // ----- The target database and the loops of the migrator -----

  class Target {
    var tables: Database
    ghost var base: Database     // the contents when copying began
    ghost var log: seq<Write>    // the rows written since
    const reliable: bool         // no database call fails
    const cascades: bool         // PostgreSQL; SQLite deletes from one table only

    /** Whether a call fails; arbitrary, unless the databases are reliable. */
    method Fails() returns (fails: bool)
      ensures reliable ==> !fails
    {
      fails := *;
      fails := fails && !reliable;
    }

    ghost predicate Valid() reads this {
      tables == Replay(base, log)
    }

    /** Copying begins: what the target holds now is what the copy is laid over. */
    ghost method Begin()
      modifies this`base, this`log
      ensures Valid() && base == tables && log == []
    {
      base, log := tables, [];
    }

    method UpsertRow(w: Write)
      requires Valid()
      modifies this`tables, this`log
      ensures Valid() && log == old(log) + [w]
    {
      tables := Put(tables, w);
      log := log + [w];
      assert log[..|log| - 1] == old(log);
    }

    /** Rows are sent one statement at a time: a failure leaves the rows before it in place. */
    method UpsertBatch(table: string, rows: seq<Row>) returns (ok: bool, ghost n: nat)
      requires Valid()
      modifies this`tables, this`log
      ensures Valid()
      ensures n <= |rows| && (ok ==> n == |rows|) && (reliable ==> ok)
      ensures log == old(log) + Writes(table, rows[..n])
    {
      n := 0;
      var i := 0;
      while i < |rows|
        invariant 0 <= i == n <= |rows| && Valid()
        invariant log == old(log) + Writes(table, rows[..n])
      {
        var fails := Fails();
        if fails { return false, n; }
        UpsertRow(Write(table, rows[i]));
        assert Writes(table, rows[..n + 1]) == Writes(table, rows[..n]) + [Write(table, rows[i])];
        i, n := i + 1, n + 1;
      }
      ok := true;
    }

    method Truncate(table: string, fks: seq<ForeignKey>)
      modifies this`tables
      ensures tables == Truncated(old(tables), cascades, fks, table)
    {
      tables := Truncated(tables, cascades, fks, table);
    }
  }

  // ----- Truncation -----

  /** The tables that reference one of `hit`, directly or not, and `hit` itself. */
  function Closure(fks: seq<ForeignKey>, hit: set<string>): set<string>
    decreases |Referrers(fks) - hit|
  {
    var more := set fk | fk in fks && fk.referencedTable in hit :: fk.table;
    if more <= hit then hit
    else
      FewerLeft(Referrers(fks), hit, more);
      Closure(fks, hit + more)
  }

  function Referrers(fks: seq<ForeignKey>): set<string> {
    set fk | fk in fks :: fk.table
  }

  lemma FewerLeft(all: set<string>, hit: set<string>, more: set<string>)
    requires more <= all && !(more <= hit)
    ensures |all - (hit + more)| < |all - hit|
  {
    var x :| x in more && x !in hit;
    Subset(all - (hit + more), all - hit - {x});
  }

  lemma {:induction false} Subset(a: set<string>, b: set<string>)
    requires a <= b
    ensures |a| <= |b|
  {
    if a != {} {
      var x :| x in a;
      Subset(a - {x}, b - {x});
    }
  }

  function TruncatedTables(cascades: bool, fks: seq<ForeignKey>, table: string): set<string> {
    if cascades then Closure(fks, {table}) else {table}
  }

  function Truncated(db: Database, cascades: bool, fks: seq<ForeignKey>, table: string): Database {
    var hit := TruncatedTables(cascades, fks, table);
    (map t | t in db :: if t in hit then map[] else db[t])[table := map[]]
  }

  function TruncatedAll(db: Database, cascades: bool, fks: seq<ForeignKey>, tables: seq<string>): Database {
    if tables == [] then db
    else
      var n := |tables| - 1;
      Truncated(TruncatedAll(db, cascades, fks, tables[..n]), cascades, fks, tables[n])
  }

  /** A walk along the foreign keys leads from `t` to `root`. */
  ghost predicate Refers(fks: seq<ForeignKey>, t: string, root: string) {
    exists p :: RefersBy(fks, p, t, root)
  }

  ghost predicate RefersBy(fks: seq<ForeignKey>, p: seq<string>, t: string, root: string) {
    p != [] && p[0] == t && p[|p| - 1] == root && IsWalk(p, Elements(p), Elements(fks))
  }

  lemma WalkTail(fks: seq<ForeignKey>, p: seq<string>, t: string, root: string)
    requires RefersBy(fks, p, t, root) && |p| > 1
    ensures ForeignKey(t, p[1]) in fks && RefersBy(fks, p[1..], p[1], root)
  {
    assert ForeignKey(p[0], p[1]) in Elements(fks);
    var q := p[1..];
    forall i | 0 <= i < |q| - 1 ensures ForeignKey(q[i], q[i + 1]) in Elements(fks) {
      assert q[i] == p[i + 1] && q[i + 1] == p[i + 2];
    }
  }

  lemma WalkCons(fks: seq<ForeignKey>, t: string, p: seq<string>, u: string, root: string)
    requires RefersBy(fks, p, u, root) && ForeignKey(t, u) in fks
    ensures RefersBy(fks, [t] + p, t, root)
  {
    var q := [t] + p;
    forall i | 0 <= i < |q| - 1 ensures ForeignKey(q[i], q[i + 1]) in Elements(fks) {
      if i > 0 { assert q[i] == p[i - 1] && q[i + 1] == p[i]; }
    }
  }

  lemma {:induction false} ClosureHolds(fks: seq<ForeignKey>, hit: set<string>, p: seq<string>, t: string, root: string)
    requires root in hit && RefersBy(fks, p, t, root)
    ensures t in Closure(fks, hit)
    decreases |p|
  {
    ClosureClosed(fks, hit);
    if |p| > 1 {
      WalkTail(fks, p, t, root);
      ClosureHolds(fks, hit, p[1..], p[1], root);
    }
  }

  lemma {:induction false} ClosureClosed(fks: seq<ForeignKey>, hit: set<string>)
    ensures hit <= Closure(fks, hit)
    ensures forall fk :: fk in fks && fk.referencedTable in Closure(fks, hit) ==> fk.table in Closure(fks, hit)
    decreases |Referrers(fks) - hit|
  {
    var more := set fk | fk in fks && fk.referencedTable in hit :: fk.table;
    if more <= hit {
      forall fk | fk in fks && fk.referencedTable in hit ensures fk.table in hit {
        assert fk.table in more;
      }
    } else {
      FewerLeft(Referrers(fks), hit, more);
      ClosureClosed(fks, hit + more);
    }
  }

  lemma {:induction false} ClosureReached(fks: seq<ForeignKey>, hit: set<string>, root: string, t: string)
    requires forall u :: u in hit ==> Refers(fks, u, root)
    requires t in Closure(fks, hit)
    ensures Refers(fks, t, root)
    decreases |Referrers(fks) - hit|
  {
    var more := set fk | fk in fks && fk.referencedTable in hit :: fk.table;
    if !(more <= hit) {
      FewerLeft(Referrers(fks), hit, more);
      forall u | u in hit + more ensures Refers(fks, u, root) {
        if u !in hit {
          var fk :| fk in fks && fk.referencedTable in hit && fk.table == u;
          var p :| RefersBy(fks, p, fk.referencedTable, root);
          WalkCons(fks, u, p, fk.referencedTable, root);
        }
      }
      ClosureReached(fks, hit + more, root, t);
    }
  }

  /** What a cascading truncation empties: exactly the tables from which a walk leads to the table. */
  lemma CascadeIff(fks: seq<ForeignKey>, table: string, t: string)
    ensures t in Closure(fks, {table}) <==> Refers(fks, t, table)
  {
    assert RefersBy(fks, [table], table, table);
    if t in Closure(fks, {table}) {
      ClosureReached(fks, {table}, table, t);
    }
    if Refers(fks, t, table) {
      var p :| RefersBy(fks, p, t, table);
      ClosureHolds(fks, {table}, p, t, table);
    }
  }

  /** The table is one of the truncated ones, or a cascade reaches it. */
  ghost predicate Swept(cascades: bool, fks: seq<ForeignKey>, tables: seq<string>, t: string) {
    exists i :: 0 <= i < |tables| && SweptBy(cascades, fks, tables[i], t)
  }

  ghost predicate SweptBy(cascades: bool, fks: seq<ForeignKey>, table: string, t: string) {
    if cascades then Refers(fks, t, table) else t == table
  }

  lemma SweptSnoc(cascades: bool, fks: seq<ForeignKey>, tables: seq<string>, t: string)
    requires tables != []
    ensures var n := |tables| - 1;
            Swept(cascades, fks, tables, t)
            <==> Swept(cascades, fks, tables[..n], t) || SweptBy(cascades, fks, tables[n], t)
  {
    var n := |tables| - 1;
    if Swept(cascades, fks, tables[..n], t) {
      var i :| 0 <= i < n && SweptBy(cascades, fks, tables[..n][i], t);
      assert SweptBy(cascades, fks, tables[i], t);
    }
    if Swept(cascades, fks, tables, t) {
      var i :| 0 <= i < |tables| && SweptBy(cascades, fks, tables[i], t);
      assert i < n ==> tables[..n][i] == tables[i];
    }
  }

  /** The contents after truncating: swept tables are empty, all others are as before. */
  lemma {:induction false} TruncatedAllAt(db: Database, cascades: bool, fks: seq<ForeignKey>, tables: seq<string>,
                                          t: string)
    ensures var after := TruncatedAll(db, cascades, fks, tables);
            && (t in after <==> t in db || t in tables)
            && (t in after && Swept(cascades, fks, tables, t) ==> after[t] == map[])
            && (t in db && !Swept(cascades, fks, tables, t) ==> after[t] == db[t])
            && (t in tables ==> Swept(cascades, fks, tables, t))
    decreases |tables|
  {
    if tables != [] {
      var n := |tables| - 1;
      TruncatedAllAt(db, cascades, fks, tables[..n], t);
      SweptSnoc(cascades, fks, tables, t);
      CascadeIff(fks, tables[n], t);
      assert RefersBy(fks, [tables[n]], tables[n], tables[n]);
      assert tables == tables[..n] + [tables[n]];
    }
  }

  predicate EmptyIn(db: Database, t: string) {
    t in db ==> db[t] == map[]
  }

  /** The table was empty, or the adapter does not cascade, or no walk along the foreign keys leads from
      it to one of the tables. */
  ghost predicate Spared(db: Database, cascades: bool, fks: seq<ForeignKey>, tables: seq<string>, t: string) {
    EmptyIn(db, t) || !cascades || forall root :: root in tables ==> !Refers(fks, t, root)
  }

  /** A table that is not truncated itself stays as it is if and only if it is spared. */
  lemma OutsideUnchangedIff(db: Database, cascades: bool, fks: seq<ForeignKey>, tables: seq<string>, t: string)
    requires t !in tables
    ensures SameTable(t, TruncatedAll(db, cascades, fks, tables), db) <==> Spared(db, cascades, fks, tables, t)
  {
    TruncatedAllAt(db, cascades, fks, tables, t);
    if Swept(cascades, fks, tables, t) {
      var i :| 0 <= i < |tables| && SweptBy(cascades, fks, tables[i], t);
      assert tables[i] in tables;
    } else if cascades {
      forall root | root in tables ensures !Refers(fks, t, root) {
        var i :| 0 <= i < |tables| && tables[i] == root;
        assert !SweptBy(cascades, fks, tables[i], t);
      }
    }
  }

  /** Truncating a selected parent on PostgreSQL empties a child table that was left out. */
  lemma ExcludedChildIsEmptied(row: Row)
    ensures var db := map["c" := map[row.key := row]];
            var fks := [ForeignKey("c", "p")];
            var after := TruncatedAll(db, true, fks, ["p"]);
            "c" in after && after["c"] == map[] && !SameTable("c", after, db)
  {
    var fks := [ForeignKey("c", "p")];
    assert RefersBy(fks, ["p"], "p", "p");
    WalkCons(fks, "c", ["p"], "p", "p");
    assert SweptBy(true, fks, ["p"][0], "c");
    TruncatedAllAt(map["c" := map[row.key := row]], true, fks, ["p"], "c");
    assert row.key in map[row.key := row];
  }

  /** `LIMIT limit OFFSET offset` over a fixed row order. */
  function SelectBatch(rows: seq<Row>, offset: nat, limit: nat): seq<Row> {
    if offset >= |rows| then []
    else if offset + limit >= |rows| then rows[offset..]
    else rows[offset..offset + limit]
  }

  lemma BatchWrites(before: seq<Write>, table: string, rows: seq<Row>, offset: nat, limit: nat, k: nat)
    requires offset <= |rows| && k <= |SelectBatch(rows, offset, limit)|
    ensures offset + k <= |rows|
    ensures before + Writes(table, rows[..offset]) + Writes(table, SelectBatch(rows, offset, limit)[..k]) ==
            before + Writes(table, rows[..offset + k])
  {
    assert SelectBatch(rows, offset, limit)[..k] == rows[offset..offset + k];
    assert rows[..offset + k] == rows[..offset] + rows[offset..offset + k];
  }

  /** Pagination copies each source row exactly once, in order; a failure leaves a prefix. */
  method MigrateTable(target: Target, table: string, rows: seq<Row>, batchSize: nat)
    returns (ok: bool, migrated: nat, ghost n: nat)
    requires batchSize > 0 && target.Valid()
    modifies target`tables, target`log
    ensures target.Valid()
    ensures n <= |rows| && (ok ==> n == |rows| == migrated) && (target.reliable ==> ok)
    ensures target.log == old(target.log) + Writes(table, rows[..n])
  {
    var offset := 0;
    migrated, n := 0, 0;
    while true
      invariant migrated == n == offset <= |rows| && target.Valid()
      invariant target.log == old(target.log) + Writes(table, rows[..n])
      decreases |rows| - offset
    {
      var fails := target.Fails();
      if fails { return false, migrated, n; }
      var batch := SelectBatch(rows, offset, batchSize);
      if batch == [] { break; }
      ghost var k: nat;
      var sent;
      sent, k := target.UpsertBatch(table, batch);
      BatchWrites(old(target.log), table, rows, offset, batchSize, k);
      n := n + k;
      if !sent { return false, migrated, n; }
      migrated := migrated + |batch|;
      offset := offset + batchSize;
      if |batch| < batchSize { break; }
    }
    ok := true;
  }

  predicate SameTable(t: string, a: Database, b: Database) {
    (t in a <==> t in b) && (t in a ==> a[t] == b[t])
  }

  method TruncateAll(target: Target, order: seq<string>, fks: seq<ForeignKey>) returns (ok: bool, ghost n: nat)
    modifies target`tables
    ensures n <= |order| && (ok ==> n == |order|) && (target.reliable ==> ok)
    ensures target.tables == TruncatedAll(old(target.tables), target.cascades, fks, order[..n])
  {
    n := 0;
    for i := 0 to |order|
      invariant n == i
      invariant target.tables == TruncatedAll(old(target.tables), target.cascades, fks, order[..n])
    {
      var fails := target.Fails();
      if fails { return false, n; }
      assert order[..n + 1][..n] == order[..n];
      target.Truncate(order[i], fks);
      n := n + 1;
    }
    ok := true;
  }

  datatype Outcome = Done | NothingToDo | InvalidBatchSize | Failed

  /** The table loop of a full migration.  Whatever fails, the target is what truncating `truncated`
      of the sorted tables left, overlaid with a prefix of the complete copy in dependency order; on
      success both are complete. */
  method RunMigration(target: Target, source: Source, filtered: seq<string>, fks: seq<ForeignKey>,
                      batchSize: nat, truncateTarget: bool)
    returns (outcome: Outcome, ghost truncated: nat)
    requires forall t :: t in filtered ==> t in source
    modifies target
    ensures outcome.InvalidBatchSize? <==> batchSize == 0
    ensures target.Valid()
    ensures SortedTables(filtered, fks, source)
    ensures var order := SortSpec(filtered, Elements(fks));
            && truncated <= |order| && (!truncateTarget ==> truncated == 0)
            && (truncateTarget && outcome.Done? ==> truncated == |order|)
            && (truncated < |order| && truncateTarget ==> target.log == [])
            && target.base == TruncatedAll(old(target.tables), target.cascades, fks, order[..truncated])
            && target.log <= FullLog(source, order)
            && (outcome.Done? ==> target.log == FullLog(source, order))
            && (outcome.NothingToDo? <==> batchSize > 0 && order == [])
    ensures forall t :: t !in filtered ==> SameTable(t, target.tables, target.base)
    ensures outcome.Done? && truncateTarget ==>
              CompleteRun(old(target.tables), target.tables, target.cascades, source, filtered, fks)
    ensures target.reliable ==> !outcome.Failed?
  {
    SortedTablesKnown(filtered, fks, source);
    target.Begin();
    truncated := 0;
    if batchSize == 0 { return InvalidBatchSize, 0; }
    var order := SortTablesByDependencies(filtered, fks);
    if order == [] { return NothingToDo, 0; }
    if truncateTarget {
      var ok;
      ok, truncated := TruncateAll(target, order, fks);
      target.Begin();
      if !ok { return Failed, truncated; }
    }
    outcome := CopyTables(target, source, order, batchSize);
    forall t | t !in filtered ensures SameTable(t, target.tables, target.base) {
      OutsideNotCopied(source, order, target.base, target.log, t);
    }
    if outcome.Done? && truncateTarget {
      assert order[..|order|] == order;
      CompleteRunHolds(old(target.tables), target.cascades, source, filtered, fks);
    }
  }

  /** A complete run with truncation: every selected table holds exactly the source's rows, and a table
      outside the selection is unchanged if and only if it was spared. */
  ghost predicate CompleteRun(before: Database, after: Database, cascades: bool, source: Source, filtered: seq<string>,
                              fks: seq<ForeignKey>)
    requires forall t :: t in filtered ==> t in source
  {
    && (forall t :: t in filtered ==> t in after && after[t] == TableOf(source[t]))
    && (forall t :: t !in filtered ==> (SameTable(t, after, before) <==> Spared(before, cascades, fks, filtered, t)))
  }

  lemma CompleteRunHolds(before: Database, cascades: bool, source: Source, filtered: seq<string>, fks: seq<ForeignKey>)
    requires forall t :: t in filtered ==> t in source
    requires SortedTables(filtered, fks, source)
    ensures var order := SortSpec(filtered, Elements(fks));
            CompleteRun(before, Replay(TruncatedAll(before, cascades, fks, order), FullLog(source, order)),
                        cascades, source, filtered, fks)
  {
    var order := SortSpec(filtered, Elements(fks));
    var base := TruncatedAll(before, cascades, fks, order);
    var after := Replay(base, FullLog(source, order));
    SortSound(filtered, Elements(fks));
    forall t | t in filtered ensures t in after && after[t] == TableOf(source[t]) {
      TruncatedAllAt(before, cascades, fks, order, t);
      SelectedIsOverlaid(source, order, base, t);
    }
    forall t | t !in filtered
      ensures SameTable(t, after, before) <==> Spared(before, cascades, fks, filtered, t)
    {
      OutsideNotCopied(source, order, base, FullLog(source, order), t);
      OutsideUnchangedIff(before, cascades, fks, order, t);
      assert Spared(before, cascades, fks, order, t) <==> Spared(before, cascades, fks, filtered, t);
    }
  }

  lemma {:induction false} ReplayOutside(db: Database, log: seq<Write>, t: string)
    requires forall i :: 0 <= i < |log| ==> log[i].table != t
    ensures SameTable(t, Replay(db, log), db)
    decreases |log|
  {
    if log != [] { ReplayOutside(db, log[..|log| - 1], t); }
  }

  /** The copy writes to selected tables only. */
  lemma OutsideNotCopied(source: Source, order: seq<string>, base: Database, log: seq<Write>, t: string)
    requires forall x :: x in order ==> x in source
    requires log <= FullLog(source, order) && t !in order
    ensures SameTable(t, Replay(base, log), base)
  {
    FullLogTables(source, order);
    forall i | 0 <= i < |log| ensures log[i].table != t {
      assert log[i] == FullLog(source, order)[i];
    }
    ReplayOutside(base, log, t);
  }

  /** Rows laid over a table, later ones over earlier ones with the same key. */
  function Overlaid(table: map<string, Row>, rows: seq<Row>): map<string, Row> {
    if rows == [] then table
    else
      var last := rows[|rows| - 1];
      Overlaid(table, rows[..|rows| - 1])[last.key := last]
  }

  function TableOf(rows: seq<Row>): map<string, Row> {
    Overlaid(map[], rows)
  }

  lemma {:induction false} WritesOverlay(db: Database, t: string, rows: seq<Row>)
    requires t in db
    ensures var after := Replay(db, Writes(t, rows));
            t in after && after[t] == Overlaid(db[t], rows)
    decreases |rows|
  {
    if rows != [] {
      var front, log := rows[..|rows| - 1], Writes(t, rows);
      WritesOverlay(db, t, front);
      assert log[..|log| - 1] == Writes(t, front);
    }
  }

  lemma {:induction false} SelectedIsOverlaid(source: Source, order: seq<string>, base: Database, t: string)
    requires forall x :: x in order ==> x in source
    requires NoDuplicates(order) && t in order && t in base
    ensures var after := Replay(base, FullLog(source, order));
            t in after && after[t] == Overlaid(base[t], source[t])
    decreases |order|
  {
    var front, last := order[..|order| - 1], order[|order| - 1];
    assert order == front + [last];
    var log, mid := FullLog(source, front), Replay(base, FullLog(source, front));
    ReplayConcat(base, log, Writes(last, source[last]));
    if t == last {
      OutsideNotCopied(source, front, base, log, t);
      WritesOverlay(mid, t, source[t]);
    } else {
      SelectedIsOverlaid(source, front, base, t);
      ReplayOutside(mid, Writes(last, source[last]), t);
    }
  }

  /** With distinct keys the table holds each row under its key, and nothing else. */
  lemma {:induction false} TableOfExact(rows: seq<Row>, key: string)
    requires UniqueKeys(rows)
    ensures key in TableOf(rows) <==> HasKey(rows, key)
    ensures forall k :: 0 <= k < |rows| && rows[k].key == key ==> key in TableOf(rows) && TableOf(rows)[key] == rows[k]
    decreases |rows|
  {
    if rows != [] {
      var front := rows[..|rows| - 1];
      TableOfExact(front, key);
      if HasKey(front, key) {
        var k :| 0 <= k < |front| && front[k].key == key;
        assert rows[k].key == key;
      }
      if HasKey(rows, key) && rows[|rows| - 1].key != key {
        var k :| 0 <= k < |rows| && rows[k].key == key;
        assert front[k].key == key;
      }
    }
  }

  method CopyTables(target: Target, source: Source, order: seq<string>, batchSize: nat) returns (outcome: Outcome)
    requires batchSize > 0 && target.Valid() && target.log == []
    requires forall t :: t in order ==> t in source
    modifies target`tables, target`log
    ensures target.Valid() && (outcome.Done? || outcome.Failed?) && (target.reliable ==> outcome.Done?)
    ensures target.log <= FullLog(source, order)
    ensures outcome.Done? ==> target.log == FullLog(source, order)
  {
    for i := 0 to |order|
      invariant target.Valid()
      invariant target.log == FullLogTo(source, order, i)
    {
      var t := order[i];
      ghost var n: nat;
      var ok, migrated;
      ok, migrated, n := MigrateTable(target, t, source[t], batchSize);
      FullLogStep(source, order, i, n);
      if !ok { return Failed; }
      assert source[t][..n] == source[t];
      var syncFails := target.Fails();
      if syncFails { return Failed; }
    }
    assert order[..|order|] == order;
    outcome := Done;
  }

  ghost predicate SortedTables(filtered: seq<string>, fks: seq<ForeignKey>, source: Source) {
    forall t :: t in SortSpec(filtered, Elements(fks)) <==> t in filtered && t in source
  }

  lemma SortedTablesKnown(filtered: seq<string>, fks: seq<ForeignKey>, source: Source)
    requires forall t :: t in filtered ==> t in source
    ensures SortedTables(filtered, fks, source)
  {
    SortSound(filtered, Elements(fks));
    var r := SortSpec(filtered, Elements(fks));
    forall t ensures t in r <==> t in filtered {
      assert t in r <==> t in Elements(r);
    }
  }

  ghost function FullLogTo(source: Source, order: seq<string>, i: nat): seq<Write>
    requires i <= |order|
    requires forall t :: t in order ==> t in source
  {
    FullLog(source, order[..i])
  }

  lemma FullLogStep(source: Source, order: seq<string>, i: nat, n: nat)
    requires i < |order| && forall t :: t in order ==> t in source
    requires n <= |source[order[i]]|
    ensures FullLogTo(source, order, i + 1) == FullLogTo(source, order, i) + Writes(order[i], source[order[i]])
    ensures FullLogTo(source, order, i) + Writes(order[i], source[order[i]][..n]) <= FullLog(source, order)
  {
    assert order[..i + 1][..i] == order[..i];
    assert Writes(order[i], source[order[i]][..n]) <= Writes(order[i], source[order[i]]);
    FullLogPrefix(source, order, i + 1);
  }

  lemma {:induction false} FullLogPrefix(source: Source, order: seq<string>, i: nat)
    requires i <= |order| && forall t :: t in order ==> t in source
    ensures FullLogTo(source, order, i) <= FullLog(source, order)
    decreases |order| - i
  {
    if i == |order| {
      assert order[..i] == order;
    } else {
      assert order[..i + 1][..i] == order[..i];
      FullLogPrefix(source, order, i + 1);
    }
  }

  lemma {:induction false} ReplayConcat(db: Database, a: seq<Write>, b: seq<Write>)
    ensures Replay(db, a + b) == Replay(Replay(db, a), b)
    decreases |b|
  {
    if b == [] {
      assert a + b == a;
    } else {
      ReplayConcat(db, a, b[..|b| - 1]);
      assert (a + b)[..|a + b| - 1] == a + b[..|b| - 1];
    }
  }

  // ----- Whole-run referential integrity -----

  ghost predicate HasKey(rows: seq<Row>, key: string) {
    exists i :: 0 <= i < |rows| && rows[i].key == key
  }

  /** Every parent inside the migrated set is declared as a foreign key and present in the source. */
  ghost predicate Consistent(source: Source, ts: set<string>, fks: set<ForeignKey>) {
    ts <= source.Keys &&
    forall t, row, ref :: t in ts && row in source[t] && ref in row.parents && ref.table in ts ==>
      ForeignKey(t, ref.table) in fks && HasKey(source[ref.table], ref.key)
  }

  ghost predicate WrittenBefore(log: seq<Write>, i: int, ref: Ref)
    requires i <= |log|
  {
    exists j :: 0 <= j < i && log[j].table == ref.table && log[j].row.key == ref.key
  }

  /** Every in-set parent of every written row was written earlier. */
  ghost predicate ParentsWritten(log: seq<Write>, ts: set<string>) {
    forall i, ref :: 0 <= i < |log| && ref in log[i].row.parents && ref.table in ts ==> WrittenBefore(log, i, ref)
  }

  /** The full log up to a table holds every row of every table before it. */
  lemma {:induction false} FullLogHas(source: Source, order: seq<string>, t: string, key: string)
    requires forall x :: x in order ==> x in source
    requires t in order && HasKey(source[t], key)
    ensures WrittenBefore(FullLog(source, order), |FullLog(source, order)|, Ref(t, key))
    decreases |order|
  {
    var front, last := order[..|order| - 1], order[|order| - 1];
    assert order == front + [last];
    var log := FullLog(source, order);
    if t == last {
      var k :| 0 <= k < |source[t]| && source[t][k].key == key;
      assert log[|FullLog(source, front)| + k] == Write(t, source[t][k]);
    } else {
      FullLogHas(source, front, t, key);
      var j :| 0 <= j < |FullLog(source, front)| &&
               FullLog(source, front)[j].table == t && FullLog(source, front)[j].row.key == key;
      assert log[j] == FullLog(source, front)[j];
    }
  }

  lemma {:induction false} FullLogParentsWritten(source: Source, order: seq<string>, ts: set<string>,
                                                 fks: set<ForeignKey>)
    requires Consistent(source, ts, fks)
    requires forall x :: x in order ==> x in ts
    requires ParentsFirst(order, ts, fks)
    ensures ParentsWritten(FullLog(source, order), ts)
    decreases |order|
  {
    if order != [] {
      var front, last := order[..|order| - 1], order[|order| - 1];
      assert order == front + [last];
      assert ParentsFirst(front, ts, fks) by {
        forall i | 0 <= i < |front| ensures ParentsBefore(front, ts, fks, {}, i) {
          assert ParentsBefore(order, ts, fks, {}, i) && front[..i] == order[..i];
        }
      }
      FullLogParentsWritten(source, front, ts, fks);
      var before, log := FullLog(source, front), FullLog(source, order);
      forall i, ref | 0 <= i < |log| && ref in log[i].row.parents && ref.table in ts
        ensures WrittenBefore(log, i, ref)
      {
        if i < |before| {
          assert log[i] == before[i] && WrittenBefore(before, i, ref);
          var j :| 0 <= j < i && before[j].table == ref.table && before[j].row.key == ref.key;
          assert log[j] == before[j];
        } else {
          assert log[i].row in source[last];
          assert ParentsBefore(order, ts, fks, {}, |front|);
          assert ForeignKey(last, ref.table).referencedTable in Elements(order[..|front|]);
          assert order[..|front|] == front;
          FullLogHas(source, front, ref.table, ref.key);
          var j :| 0 <= j < |before| && before[j].table == ref.table && before[j].row.key == ref.key;
          assert log[j] == before[j];
        }
      }
    }
  }

  ghost predicate Present(db: Database, ref: Ref) {
    ref.table in db && ref.key in db[ref.table]
  }

  lemma {:induction false} ReplayHas(db: Database, log: seq<Write>, j: nat)
    requires j < |log|
    ensures Present(Replay(db, log), Ref(log[j].table, log[j].row.key))
    decreases |log|
  {
    if j < |log| - 1 {
      ReplayHas(db, log[..|log| - 1], j);
    }
  }

  /** With no foreign-key cycle among the migrated tables and a consistent source, after every
      single row of every run, failed or not, each row copied so far has its in-set parents in
      the target, whatever the target held at the start. */
  lemma WholeRunIntegrity(source: Source, filtered: seq<string>, fks: seq<ForeignKey>,
                          start: Database, written: seq<Write>, k: nat, i: nat, ref: Ref)
    requires Consistent(source, Elements(filtered), Elements(fks))
    requires Acyclic(Elements(filtered), Elements(fks))
    requires forall t :: t in SortSpec(filtered, Elements(fks)) ==> t in source
    requires written <= FullLog(source, SortSpec(filtered, Elements(fks)))
    requires i < k <= |written| && ref in written[i].row.parents && ref.table in Elements(filtered)
    ensures Present(Replay(start, written[..k]), ref)
  {
    var ts, order := Elements(filtered), SortSpec(filtered, Elements(fks));
    var log := FullLog(source, order);
    SortSound(filtered, Elements(fks));
    ParentsFirstIffAcyclic(filtered, Elements(fks));
    forall x | x in order ensures x in ts {
      assert x in Elements(order);
    }
    FullLogParentsWritten(source, order, ts, Elements(fks));
    assert written[i] == log[i];
    assert WrittenBefore(log, i, ref);
    var j :| 0 <= j < i && log[j].table == ref.table && log[j].row.key == ref.key;
    assert written[..k][j] == log[j];
    ReplayHas(start, written[..k], j);
  }

  lemma MisplacedParent(filtered: seq<string>, fks: set<ForeignKey>) returns (i: nat, parent: string)
    requires !Acyclic(Elements(filtered), fks)
    ensures var order := SortSpec(filtered, fks);
            && (forall t :: t in order <==> t in Elements(filtered))
            && i < |order| && order[i] in Elements(filtered) && parent in Elements(filtered)
            && ForeignKey(order[i], parent) in fks && parent !in order[..i]
  {
    var ts, order := Elements(filtered), SortSpec(filtered, fks);
    SortSound(filtered, fks);
    forall t ensures t in order <==> t in ts {
      assert t in order <==> t in Elements(order);
    }
    ParentsFirstIffAcyclic(filtered, fks);
    i :| 0 <= i < |order| && !ParentsBefore(order, ts, fks, {}, i);
    var fk :| fk in fks && fk.table == order[i] && InSet(ts, fk) && fk.referencedTable !in {} + Elements(order[..i]);
    parent := fk.referencedTable;
    assert fk == ForeignKey(order[i], parent);
  }

  /** After `k` rows of the copy row `i` is written, and its in-set parent `ref` is missing. */
  ghost predicate MissingParent(log: seq<Write>, ts: set<string>, k: nat, i: nat, ref: Ref) {
    && i < k <= |log| && ref in log[i].row.parents && ref.table in ts
    && !Present(Replay(map[], log[..k]), ref)
  }

  /** The condition is exact: for every selection with a cycle, a self-reference included, there is a
      consistent source whose copy into an empty target breaks the integrity. */
  lemma CycleBreaksIntegrity(filtered: seq<string>, fks: set<ForeignKey>)
    returns (source: Source, k: nat, i: nat, ref: Ref)
    requires !Acyclic(Elements(filtered), fks)
    ensures Consistent(source, Elements(filtered), fks)
    ensures forall t :: t in SortSpec(filtered, fks) ==> t in source
    ensures MissingParent(FullLog(source, SortSpec(filtered, fks)), Elements(filtered), k, i, ref)
  {
    var at, parent := MisplacedParent(filtered, fks);
    var order, ts := SortSpec(filtered, fks), Elements(filtered);
    source, ref := EarlyChild(ts, order[at], parent), Ref(parent, PARENT);
    EarlyChildConsistent(ts, fks, order[at], parent);
    k := EarlyChildUnmet(order, ts, at, parent);
    i := k - 1;
  }

  const CHILD := "c"
  const PARENT := "p"

  /** Every table has a row "p"; before it, the child table has a row that references the parent. */
  function EarlyChild(ts: set<string>, child: string, parent: string): Source {
    map t | t in ts ::
      (if t == child then [Row(CHILD, {Ref(parent, PARENT)}, "")] else []) + [Row(PARENT, {}, "")]
  }

  lemma EarlyChildConsistent(ts: set<string>, fks: set<ForeignKey>, child: string, parent: string)
    requires child in ts && parent in ts && ForeignKey(child, parent) in fks
    ensures Consistent(EarlyChild(ts, child, parent), ts, fks)
  {
    var source := EarlyChild(ts, child, parent);
    var rows := source[parent];
    assert rows[|rows| - 1].key == PARENT;
    assert HasKey(rows, PARENT);
  }

  lemma {:induction false} FullLogTables(source: Source, order: seq<string>)
    requires forall t :: t in order ==> t in source
    ensures forall i :: 0 <= i < |FullLog(source, order)| ==> FullLog(source, order)[i].table in order
  {
    if order != [] {
      FullLogTables(source, order[..|order| - 1]);
    }
  }

  lemma EarlyChildUnmet(order: seq<string>, ts: set<string>, at: nat, parent: string) returns (k: nat)
    requires forall t :: t in order <==> t in ts
    requires at < |order| && parent in ts && parent !in order[..at]
    ensures k > 0 && MissingParent(FullLog(EarlyChild(ts, order[at], parent), order), ts, k, k - 1, Ref(parent, PARENT))
  {
    var source := EarlyChild(ts, order[at], parent);
    var before, log := FullLogTo(source, order, at), FullLog(source, order);
    var row := source[order[at]][0];
    FullLogStep(source, order, at, 1);
    assert Writes(order[at], source[order[at]][..1]) == [Write(order[at], row)];
    k := |before| + 1;
    assert log[..k] == before + [Write(order[at], row)];
    FullLogTables(source, order[..at]);
    ReplayOther(map[], log[..k], parent, PARENT);
  }

  ghost predicate UniqueKeys(rows: seq<Row>) {
    forall i, j :: 0 <= i < j < |rows| ==> rows[i].key != rows[j].key
  }

  lemma {:induction false} ReplayOther(db: Database, log: seq<Write>, t: string, key: string)
    requires forall i :: 0 <= i < |log| ==> log[i].table != t || log[i].row.key != key
    ensures Present(Replay(db, log), Ref(t, key)) <==> Present(db, Ref(t, key))
    ensures Present(db, Ref(t, key)) ==> Replay(db, log)[t][key] == db[t][key]
    decreases |log|
  {
    if log != [] {
      ReplayOther(db, log[..|log| - 1], t, key);
    }
  }

  /** A successful run leaves every source row of every migrated table in the target. */
  lemma {:induction false} CopiesEveryRow(source: Source, order: seq<string>, start: Database, t: string, k: nat)
    requires forall x :: x in order ==> x in source
    requires NoDuplicates(order)
    requires t in order && k < |source[t]| && UniqueKeys(source[t])
    ensures var row := source[t][k];
            var end := Replay(start, FullLog(source, order));
            Present(end, Ref(t, row.key)) && end[t][row.key] == row
    decreases |order|
  {
    var front, last := order[..|order| - 1], order[|order| - 1];
    assert order == front + [last];
    var row, before := source[t][k], FullLog(source, front);
    ReplayConcat(start, before, Writes(last, source[last]));
    if t == last {
      ReplayRow(Replay(start, before), t, source[t], k);
    } else {
      CopiesEveryRow(source, front, start, t, k);
      ReplayOther(Replay(start, before), Writes(last, source[last]), t, row.key);
    }
  }

  lemma ReplayRow(db: Database, t: string, rows: seq<Row>, k: nat)
    requires k < |rows| && UniqueKeys(rows)
    ensures var end := Replay(db, Writes(t, rows));
            Present(end, Ref(t, rows[k].key)) && end[t][rows[k].key] == rows[k]
  {
    var log := Writes(t, rows);
    var upTo, rest := log[..k + 1], log[k + 1..];
    assert log == upTo + rest;
    assert upTo[..k] == log[..k] && upTo[k] == Write(t, rows[k]);
    ReplayConcat(db, upTo, rest);
    ReplayOther(Replay(db, upTo), rest, t, rows[k].key);
  }
}
