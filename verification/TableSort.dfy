/** The foreign-key sort of the migrator: Kahn's algorithm with a descending queue and a
    fallback for tables on or below a cycle. */
module TableSort {
  import opened StringOrder

  datatype ForeignKey = ForeignKey(table: string, referencedTable: string)

  predicate InSet(ts: set<string>, fk: ForeignKey) {
    fk.table in ts && fk.referencedTable in ts
  }

  // ----- Reference definition: repeatedly emit the least table whose parents are all out -----

  ghost predicate IsReady(ts: set<string>, fks: set<ForeignKey>, done: set<string>, t: string) {
    t in ts && t !in done &&
    forall fk :: fk in fks && fk.table == t && InSet(ts, fk) ==> fk.referencedTable in done
  }

  ghost function ReadySet(ts: set<string>, fks: set<ForeignKey>, done: set<string>): set<string> {
    set t | t in ts && IsReady(ts, fks, done, t)
  }

  ghost function QueueOrder(ts: set<string>, fks: set<ForeignKey>, done: set<string>): seq<string>
    decreases ts - done
  {
    var ready := ReadySet(ts, fks, done);
    if ready == {} then []
    else
      var t := Least(ready);
      assert t in ts - done;
      [t] + QueueOrder(ts, fks, done + {t})
  }

  function AppendMissing(result: seq<string>, tables: seq<string>): seq<string>
    decreases |tables|
  {
    if tables == [] then result
    else AppendMissing(if tables[0] in result then result else result + [tables[0]], tables[1..])
  }

  function Elements<T(==)>(s: seq<T>): set<T> {
    set x | x in s
  }

  /** What the sort returns; it depends on the foreign keys only through their set. */
  ghost function SortSpec(tables: seq<string>, fks: set<ForeignKey>): seq<string> {
    AppendMissing(QueueOrder(Elements(tables), fks, {}), tables)
  }

  // ----- The counters of the implementation -----

  /** Number of in-set foreign keys of `t`, duplicates included, whose parent is not in `done`. */
  ghost function PendingCount(fks: seq<ForeignKey>, ts: set<string>, t: string, done: set<string>): nat {
    if fks == [] then 0
    else
      var fk := fks[|fks| - 1];
      PendingCount(fks[..|fks| - 1], ts, t, done) +
      (if InSet(ts, fk) && fk.table == t && fk.referencedTable !in done then 1 else 0)
  }

  ghost function DependentsOf(fks: seq<ForeignKey>, ts: set<string>, r: string): seq<string> {
    if fks == [] then []
    else
      var fk := fks[|fks| - 1];
      DependentsOf(fks[..|fks| - 1], ts, r) +
      (if InSet(ts, fk) && fk.referencedTable == r then [fk.table] else [])
  }

  /** Emitting `r` lowers the count of each dependent once per foreign key to `r`. */
  lemma {:induction false} PendingAfterEmit(fks: seq<ForeignKey>, ts: set<string>, t: string, done: set<string>,
                                            r: string)
    requires r !in done
    ensures PendingCount(fks, ts, t, done) ==
            PendingCount(fks, ts, t, done + {r}) + multiset(DependentsOf(fks, ts, r))[t]
  {
    if fks != [] {
      PendingAfterEmit(fks[..|fks| - 1], ts, t, done, r);
    }
  }

  lemma {:induction false} PendingZero(fks: seq<ForeignKey>, ts: set<string>, t: string, done: set<string>)
    ensures PendingCount(fks, ts, t, done) == 0 <==>
            forall fk :: fk in fks && fk.table == t && InSet(ts, fk) ==> fk.referencedTable in done
  {
    if fks != [] {
      var front := fks[..|fks| - 1];
      PendingZero(front, ts, t, done);
      assert fks == front + [fks[|fks| - 1]];
      assert forall fk :: fk in fks <==> fk in front || fk == fks[|fks| - 1];
    }
  }

  lemma {:induction false} DependentsInSet(fks: seq<ForeignKey>, ts: set<string>, r: string)
    ensures forall t :: t in DependentsOf(fks, ts, r) ==> t in ts
  {
    if fks != [] {
      DependentsInSet(fks[..|fks| - 1], ts, r);
    }
  }

  lemma ReadyByCount(fks: seq<ForeignKey>, ts: set<string>, done: set<string>)
    ensures forall t :: t in ReadySet(ts, Elements(fks), done) <==>
                        t in ts && t !in done && PendingCount(fks, ts, t, done) == 0
  {
    forall t ensures t in ReadySet(ts, Elements(fks), done) <==>
                     t in ts && t !in done && PendingCount(fks, ts, t, done) == 0 {
      PendingZero(fks, ts, t, done);
    }
  }

  // ----- The implementation -----

  lemma CountStep(fks: seq<ForeignKey>, i: nat, ts: set<string>, t: string)
    requires i < |fks|
    ensures PendingCount(fks[..i + 1], ts, t, {}) ==
            PendingCount(fks[..i], ts, t, {}) + (if InSet(ts, fks[i]) && fks[i].table == t then 1 else 0)
    ensures DependentsOf(fks[..i + 1], ts, t) ==
            DependentsOf(fks[..i], ts, t) +
            (if InSet(ts, fks[i]) && fks[i].referencedTable == t then [fks[i].table] else [])
  {
    assert fks[..i + 1][..i] == fks[..i];
  }

  function At(m: map<string, seq<string>>, k: string): seq<string> {
    if k in m then m[k] else []
  }

  method BuildGraph(ts: set<string>, fks: seq<ForeignKey>)
    returns (dependents: map<string, seq<string>>, inDegree: map<string, nat>)
    ensures inDegree.Keys == ts
    ensures forall t :: t in ts ==> inDegree[t] == PendingCount(fks, ts, t, {})
    ensures forall r :: r in ts ==> At(dependents, r) == DependentsOf(fks, ts, r)
  {
    dependents := map[];
    inDegree := map t | t in ts :: 0;
    for i := 0 to |fks|
      invariant inDegree.Keys == ts
      invariant forall t :: t in ts ==> inDegree[t] == PendingCount(fks[..i], ts, t, {})
      invariant forall r :: r in ts ==> At(dependents, r) == DependentsOf(fks[..i], ts, r)
    {
      var fk := fks[i];
      ghost var d0, n0 := dependents, inDegree;
      if InSet(ts, fk) {
        var r := fk.referencedTable;
        dependents := dependents[r := At(dependents, r) + [fk.table]];
        inDegree := inDegree[fk.table := inDegree[fk.table] + 1];
      }
      forall t | t in ts
        ensures inDegree[t] == PendingCount(fks[..i + 1], ts, t, {})
        ensures At(dependents, t) == DependentsOf(fks[..i + 1], ts, t)
      {
        CountStep(fks, i, ts, t);
      }
    }
    assert fks[..|fks|] == fks;
  }

  /** `sort_by` on the zero-degree tables: the set arrives in an arbitrary (hash) order. */
  method SortedDescending(s: set<string>) returns (q: seq<string>)
    ensures Descending(q) && Elements(q) == s
  {
    q := [];
    var rest := s;
    while rest != {}
      invariant rest <= s && Descending(q)
      invariant forall x :: x in q <==> x in s - rest
    {
      var t :| t in rest;
      q := InsertDescending(q, t);
      rest := rest - {t};
    }
  }

  /** `partition_point` followed by `insert`. */
  method InsertDescending(q: seq<string>, t: string) returns (q': seq<string>)
    requires Descending(q) && t !in q
    ensures Descending(q') && forall x :: x in q' <==> x in q || x == t
  {
    var pos := 0;
    while pos < |q| && Less(t, q[pos])
      invariant 0 <= pos <= |q|
      invariant forall i :: 0 <= i < pos ==> Less(t, q[i])
    {
      pos := pos + 1;
    }
    q' := q[..pos] + [t] + q[pos..];
    forall i | pos <= i < |q| ensures Less(q[i], t) {
      LessTotal(t, q[pos]);
      if i != pos { LessTrans(q[i], q[pos], t); }
    }
    assert q == q[..pos] + q[pos..];
  }

  /** The loop invariant of the queue phase: degrees count unemitted parents, the queue holds
      the ready tables in descending order. */
  ghost predicate QueueInv(fks: seq<ForeignKey>, ts: set<string>, done: set<string>,
                           inDegree: map<string, nat>, queue: seq<string>)
  {
    && inDegree.Keys == ts && done <= ts
    && (forall t :: t in ts ==> inDegree[t] == PendingCount(fks, ts, t, done))
    && (forall t :: t in done ==> inDegree[t] == 0)
    && Descending(queue) && Elements(queue) == ReadySet(ts, Elements(fks), done)
  }

  method SortTablesByDependencies(tables: seq<string>, fks: seq<ForeignKey>) returns (result: seq<string>)
    ensures result == SortSpec(tables, Elements(fks))
  {
    var ts := Elements(tables);
    var dependents, inDegree := BuildGraph(ts, fks);
    var queue := SortedDescending(set t | t in ts && inDegree[t] == 0);
    InitialQueue(fks, ts, inDegree, queue);
    result := QueuePhase(ts, fks, dependents, inDegree, queue, QueueOrder(ts, Elements(fks), {}));
    result := AppendLeftovers(result, tables);
  }

  lemma InitialQueue(fks: seq<ForeignKey>, ts: set<string>, inDegree: map<string, nat>, queue: seq<string>)
    requires inDegree.Keys == ts && Descending(queue)
    requires forall t :: t in ts ==> inDegree[t] == PendingCount(fks, ts, t, {})
    requires Elements(queue) == set t | t in ts && inDegree[t] == 0
    ensures QueueInv(fks, ts, {}, inDegree, queue)
  {
    ReadyByCount(fks, ts, {});
    assert Elements(queue) == ReadySet(ts, Elements(fks), {});
  }

  /** What has been emitted and what the reference definition emits from here on make up `order`. */
  ghost predicate Emitted(fks: seq<ForeignKey>, ts: set<string>, done: set<string>, result: seq<string>,
                          order: seq<string>) {
    result + QueueOrder(ts, Elements(fks), done) == order
  }

  method QueuePhase(ts: set<string>, ghost fks: seq<ForeignKey>, dependents: map<string, seq<string>>,
                    inDegree0: map<string, nat>, queue0: seq<string>, ghost order: seq<string>)
    returns (result: seq<string>)
    requires QueueInv(fks, ts, {}, inDegree0, queue0)
    requires forall r :: r in ts ==> At(dependents, r) == DependentsOf(fks, ts, r)
    requires order == QueueOrder(ts, Elements(fks), {})
    ensures result == order
  {
    ghost var done: set<string> := {};
    var inDegree, queue := inDegree0, queue0;
    result := [];
    assert Emitted(fks, ts, done, result, order);
    while queue != []
      invariant QueueInv(fks, ts, done, inDegree, queue)
      invariant Emitted(fks, ts, done, result, order)
      decreases ts - done
    {
      var table := queue[|queue| - 1];
      EmitStep(fks, ts, done, inDegree, queue, result, order);
      result := result + [table];
      inDegree, queue := ReleaseDependents(fks, ts, done, table, At(dependents, table), inDegree, queue);
      done := done + {table};
    }
    EmitEnd(fks, ts, done, inDegree, result, order);
  }

  lemma EmitStep(fks: seq<ForeignKey>, ts: set<string>, done: set<string>,
                 inDegree: map<string, nat>, queue: seq<string>, result: seq<string>, order: seq<string>)
    requires QueueInv(fks, ts, done, inDegree, queue) && queue != [] && Emitted(fks, ts, done, result, order)
    ensures var table := queue[|queue| - 1];
            table in ts - done && Emitted(fks, ts, done + {table}, result + [table], order)
  {
    var tail := QueueOrder(ts, Elements(fks), done);
    QueueStep(fks, ts, done, inDegree, queue, tail);
    assert result + tail == (result + [tail[0]]) + tail[1..];
  }

  lemma EmitEnd(fks: seq<ForeignKey>, ts: set<string>, done: set<string>,
                inDegree: map<string, nat>, result: seq<string>, order: seq<string>)
    requires QueueInv(fks, ts, done, inDegree, []) && Emitted(fks, ts, done, result, order)
    ensures result == order
  {
    QueueStep(fks, ts, done, inDegree, [], QueueOrder(ts, Elements(fks), done));
    assert result + [] == result;
  }

  method AppendLeftovers(queued: seq<string>, tables: seq<string>) returns (result: seq<string>)
    ensures result == AppendMissing(queued, tables)
  {
    result := queued;
    for i := 0 to |tables|
      invariant AppendMissing(result, tables[i..]) == AppendMissing(queued, tables)
    {
      assert tables[i..][1..] == tables[i + 1..];
      if tables[i] !in result {
        result := result + [tables[i]];
      }
    }
  }

  lemma QueueStep(fks: seq<ForeignKey>, ts: set<string>, done: set<string>,
                  inDegree: map<string, nat>, queue: seq<string>, tail: seq<string>)
    requires QueueInv(fks, ts, done, inDegree, queue)
    requires tail == QueueOrder(ts, Elements(fks), done)
    ensures queue == [] ==> tail == []
    ensures queue != [] ==>
              var table := queue[|queue| - 1];
              && table in ts - done
              && tail != [] && tail[0] == table && tail[1..] == QueueOrder(ts, Elements(fks), done + {table})
  {
    if queue == [] {
      assert Elements(queue) == {};
    } else {
      LastIsLeast(queue, ReadySet(ts, Elements(fks), done));
    }
  }

  /** One pop of the queue: a dependent enters the queue exactly when its last parent is emitted. */
  method ReleaseDependents(ghost fks: seq<ForeignKey>, ghost ts: set<string>, ghost before: set<string>,
                           table: string, deps: seq<string>, inDegree0: map<string, nat>, queue0: seq<string>)
    returns (inDegree: map<string, nat>, queue: seq<string>)
    requires QueueInv(fks, ts, before, inDegree0, queue0)
    requires queue0 != [] && table == queue0[|queue0| - 1]
    requires deps == DependentsOf(fks, ts, table)
    ensures QueueInv(fks, ts, before + {table}, inDegree, queue)
  {
    ghost var done := before + {table};
    ghost var base: map<string, nat> := map t | t in ts :: PendingCount(fks, ts, t, done);
    assert forall t :: t in ts && t !in done && inDegree0[t] == 0 <==> t in queue0[..|queue0| - 1] by {
      QueueWithoutLast(fks, ts, before, inDegree0, queue0);
    }
    forall t | t in ts ensures inDegree0[t] == base[t] + multiset(deps)[t] {
      QueueWithoutLast(fks, ts, before, inDegree0, queue0);
      PendingAfterEmit(fks, ts, t, before, table);
    }
    assert table in ts && inDegree0[table] == 0 by { QueueWithoutLast(fks, ts, before, inDegree0, queue0); }
    DependentsInSet(fks, ts, table);
    inDegree, queue := DecrementAll(deps, base, done, inDegree0, queue0[..|queue0| - 1]);
    ReadyByCount(fks, ts, done);
    assert Elements(queue) == ReadySet(ts, Elements(fks), done);
  }

  lemma QueueWithoutLast(fks: seq<ForeignKey>, ts: set<string>, before: set<string>,
                         inDegree: map<string, nat>, queue: seq<string>)
    requires QueueInv(fks, ts, before, inDegree, queue) && queue != []
    ensures var table := queue[|queue| - 1];
            && table in ts && table !in before && inDegree[table] == 0
            && (forall t :: t in ts && t !in before + {table} && inDegree[t] == 0 <==> t in queue[..|queue| - 1])
  {
    var table := queue[|queue| - 1];
    var front := queue[..|queue| - 1];
    ReadyByCount(fks, ts, before);
    assert queue == front + [table];
    forall t ensures t in queue <==> t in ReadySet(ts, Elements(fks), before) {
      assert t in queue <==> t in Elements(queue);
    }
    assert table !in front by { LessIrreflexive(table); }
    assert table in queue;
  }

  /** The inner loop of a pop.  Degrees are `nat`s, so no decrement underflows. */
  method DecrementAll(deps: seq<string>, ghost base: map<string, nat>, ghost done: set<string>,
                      inDegree0: map<string, nat>, queue0: seq<string>)
    returns (inDegree: map<string, nat>, queue: seq<string>)
    requires inDegree0.Keys == base.Keys && done <= base.Keys
    requires forall t :: t in deps ==> t in base
    requires forall t :: t in base ==> inDegree0[t] == base[t] + multiset(deps)[t]
    requires forall t :: t in done ==> inDegree0[t] == 0
    requires Descending(queue0)
    requires forall t :: t in base && t !in done && inDegree0[t] == 0 <==> t in queue0
    ensures inDegree == base && Descending(queue)
    ensures forall t :: t in done ==> inDegree[t] == 0
    ensures forall t :: t in base && t !in done && inDegree[t] == 0 <==> t in queue
  {
    inDegree, queue := inDegree0, queue0;
    assert deps[0..] == deps;
    for k := 0 to |deps|
      invariant inDegree.Keys == base.Keys
      invariant forall t :: t in base ==> inDegree[t] == base[t] + multiset(deps[k..])[t]
      invariant Descending(queue)
      invariant forall t :: t in base && t !in done && inDegree[t] == 0 <==> t in queue
      invariant forall t :: t in done ==> inDegree[t] == 0
    {
      var d := deps[k];
      CountRest(deps, k);
      inDegree := inDegree[d := inDegree[d] - 1];
      if inDegree[d] == 0 {
        queue := InsertDescending(queue, d);
      }
    }
  }

  lemma CountRest(deps: seq<string>, k: nat)
    requires k < |deps|
    ensures forall t :: multiset(deps[k..])[t] == multiset(deps[k + 1..])[t] + (if t == deps[k] then 1 else 0)
  {
    assert deps[k..] == [deps[k]] + deps[k + 1..];
  }

  // ----- Properties of the order -----

  ghost predicate NoDuplicates(s: seq<string>) {
    forall i, j :: 0 <= i < j < |s| ==> s[i] != s[j]
  }

  /** Every in-set parent of the table at position `i` stands in `done` or earlier in `o`. */
  ghost predicate ParentsBefore(o: seq<string>, ts: set<string>, fks: set<ForeignKey>, done: set<string>, i: int)
    requires 0 <= i < |o|
  {
    forall fk :: fk in fks && fk.table == o[i] && InSet(ts, fk) ==> fk.referencedTable in done + Elements(o[..i])
  }

  lemma {:induction false} QueueOrderSound(ts: set<string>, fks: set<ForeignKey>, done: set<string>)
    ensures var o := QueueOrder(ts, fks, done);
            && NoDuplicates(o)
            && Elements(o) <= ts && Elements(o) !! done
            && (forall i :: 0 <= i < |o| ==> ParentsBefore(o, ts, fks, done, i))
            && ReadySet(ts, fks, done + Elements(o)) == {}
    decreases ts - done
  {
    var o := QueueOrder(ts, fks, done);
    var ready := ReadySet(ts, fks, done);
    if ready == {} {
      assert done + Elements(o) == done;
    } else {
      var t := Least(ready);
      assert t in ts - done;
      var rest := QueueOrder(ts, fks, done + {t});
      QueueOrderSound(ts, fks, done + {t});
      assert o == [t] + rest;
      assert Elements(o) == {t} + Elements(rest);
      assert done + Elements(o) == done + {t} + Elements(rest);
      forall i | 0 <= i < |o| ensures ParentsBefore(o, ts, fks, done, i) {
        if i > 0 {
          assert ParentsBefore(rest, ts, fks, done + {t}, i - 1);
          ParentsBehind(t, rest, ts, fks, done, i - 1);
        }
      }
    }
  }

  lemma ParentsBehind(t: string, rest: seq<string>, ts: set<string>, fks: set<ForeignKey>, done: set<string>, i: nat)
    requires i < |rest| && ParentsBefore(rest, ts, fks, done + {t}, i)
    ensures ParentsBefore([t] + rest, ts, fks, done, i + 1)
  {
    var o := [t] + rest;
    assert o[..i + 1] == [t] + rest[..i];
    assert done + {t} + Elements(rest[..i]) == done + Elements(o[..i + 1]);
  }

  /** Determinism, step by step: each emitted table is the least one ready at that moment. */
  lemma {:induction false} EachStepEmitsLeastReady(ts: set<string>, fks: set<ForeignKey>, done: set<string>, i: nat)
    requires i < |QueueOrder(ts, fks, done)|
    ensures var o := QueueOrder(ts, fks, done);
            var ready := ReadySet(ts, fks, done + Elements(o[..i]));
            ready != {} && IsLeast(ready, o[i])
    decreases ts - done
  {
    var o := QueueOrder(ts, fks, done);
    var t := Least(ReadySet(ts, fks, done));
    assert t in ts - done;
    if i == 0 {
      assert done + Elements(o[..0]) == done;
    } else {
      EachStepEmitsLeastReady(ts, fks, done + {t}, i - 1);
      var rest := QueueOrder(ts, fks, done + {t});
      assert o[..i] == [t] + rest[..i - 1];
      assert done + {t} + Elements(rest[..i - 1]) == done + Elements(o[..i]);
    }
  }

  lemma {:induction false} AppendMissingSound(result: seq<string>, tables: seq<string>)
    requires NoDuplicates(result)
    ensures var r := AppendMissing(result, tables);
            && NoDuplicates(r) && result <= r && Elements(r) == Elements(result) + Elements(tables)
            && (Elements(tables) <= Elements(result) ==> r == result)
    decreases |tables|
  {
    if tables != [] {
      var next := if tables[0] in result then result else result + [tables[0]];
      AppendMissingSound(next, tables[1..]);
      assert tables == [tables[0]] + tables[1..];
      assert Elements(tables) == {tables[0]} + Elements(tables[1..]);
      assert tables[0] in Elements(tables);
    }
  }

  /** Where a table stands first in a list. */
  function FirstAt(tables: seq<string>, t: string): nat {
    if tables == [] || tables[0] == t then 0 else 1 + FirstAt(tables[1..], t)
  }

  /** `rest` holds tables of the list that are not in `result`, in the order of the list. */
  ghost predicate InListOrder(result: seq<string>, tables: seq<string>, rest: seq<string>) {
    && (forall i :: 0 <= i < |rest| ==> rest[i] in tables && rest[i] !in result)
    && (forall i, j :: 0 <= i < j < |rest| ==> FirstAt(tables, rest[i]) < FirstAt(tables, rest[j]))
  }

  lemma OrderSkips(result: seq<string>, tables: seq<string>, rest: seq<string>)
    requires tables != [] && tables[0] in result && InListOrder(result, tables[1..], rest)
    ensures InListOrder(result, tables, rest)
  {
  }

  lemma OrderTakes(result: seq<string>, tables: seq<string>, rest: seq<string>)
    requires tables != [] && tables[0] !in result && InListOrder(result + [tables[0]], tables[1..], rest)
    ensures InListOrder(result, tables, [tables[0]] + rest)
  {
    var all := [tables[0]] + rest;
    forall i | 1 <= i < |all|
      ensures all[i] in tables && all[i] !in result && FirstAt(tables, all[i]) == 1 + FirstAt(tables[1..], all[i])
    {
      assert all[i] == rest[i - 1] && tables[0] in result + [tables[0]];
    }
  }

  lemma {:induction false} AppendMissingOrder(result: seq<string>, tables: seq<string>) returns (rest: seq<string>)
    ensures AppendMissing(result, tables) == result + rest && InListOrder(result, tables, rest)
    decreases |tables|
  {
    if tables == [] {
      rest := [];
    } else if tables[0] in result {
      rest := AppendMissingOrder(result, tables[1..]);
      OrderSkips(result, tables, rest);
    } else {
      var later := AppendMissingOrder(result + [tables[0]], tables[1..]);
      rest := [tables[0]] + later;
      OrderTakes(result, tables, later);
      assert result + [tables[0]] + later == result + rest;
    }
  }

  /** The tables left to the fallback follow the sorted ones in the order of the input. */
  lemma LeftoversInOrder(tables: seq<string>, fks: set<ForeignKey>) returns (rest: seq<string>)
    ensures var sorted := QueueOrder(Elements(tables), fks, {});
            SortSpec(tables, fks) == sorted + rest && InListOrder(sorted, tables, rest)
  {
    rest := AppendMissingOrder(QueueOrder(Elements(tables), fks, {}), tables);
  }

  /** The result is a permutation of the distinct input tables, and in its queue-phase prefix
      every table comes after all its in-set parents. */
  lemma SortSound(tables: seq<string>, fks: set<ForeignKey>)
    ensures SoundResult(QueueOrder(Elements(tables), fks, {}), SortSpec(tables, fks), Elements(tables), fks)
  {
    var ts := Elements(tables);
    QueueOrderSound(ts, fks, {});
    AppendKeepsSound(QueueOrder(ts, fks, {}), tables, ts, fks);
  }

  ghost predicate SoundResult(q: seq<string>, r: seq<string>, ts: set<string>, fks: set<ForeignKey>) {
    && NoDuplicates(r) && Elements(r) == ts && q <= r
    && (forall i :: 0 <= i < |q| ==> ParentsBefore(r, ts, fks, {}, i))
    && (Elements(q) == ts ==> r == q)
  }

  lemma AppendKeepsSound(q: seq<string>, tables: seq<string>, ts: set<string>, fks: set<ForeignKey>)
    requires ts == Elements(tables) && NoDuplicates(q) && Elements(q) <= ts
    requires forall i :: 0 <= i < |q| ==> ParentsBefore(q, ts, fks, {}, i)
    ensures SoundResult(q, AppendMissing(q, tables), ts, fks)
  {
    AppendMissingSound(q, tables);
    PrefixKeepsParents(q, AppendMissing(q, tables), ts, fks);
  }

  lemma PrefixKeepsParents(q: seq<string>, r: seq<string>, ts: set<string>, fks: set<ForeignKey>)
    requires q <= r
    requires forall i :: 0 <= i < |q| ==> ParentsBefore(q, ts, fks, {}, i)
    ensures forall i :: 0 <= i < |q| ==> ParentsBefore(r, ts, fks, {}, i)
  {
    forall i | 0 <= i < |q| ensures ParentsBefore(r, ts, fks, {}, i) {
      assert ParentsBefore(q, ts, fks, {}, i);
      assert q[..i] == r[..i];
    }
  }

  /** Every table left to the fallback has an in-set parent that is left over too. */
  lemma LeftoverHasLeftoverParent(ts: set<string>, fks: set<ForeignKey>, t: string) returns (parent: string)
    requires t in ts && t !in QueueOrder(ts, fks, {})
    ensures parent in ts && ForeignKey(t, parent) in fks && parent !in QueueOrder(ts, fks, {})
  {
    var q := QueueOrder(ts, fks, {});
    QueueOrderSound(ts, fks, {});
    assert {} + Elements(q) == Elements(q);
    assert !IsReady(ts, fks, Elements(q), t) by {
      assert t !in ReadySet(ts, fks, Elements(q));
    }
    var fk :| fk in fks && fk.table == t && InSet(ts, fk) && fk.referencedTable !in Elements(q);
    parent := fk.referencedTable;
    assert fk == ForeignKey(t, parent);
  }

  /** The same set of foreign keys, in any order and with any repetitions, gives the same result. */
  lemma SortIgnoresKeyOrder(tables: seq<string>, fks: seq<ForeignKey>, fks': seq<ForeignKey>)
    requires forall fk :: fk in fks <==> fk in fks'
    ensures SortSpec(tables, Elements(fks)) == SortSpec(tables, Elements(fks'))
  {
    assert Elements(fks) == Elements(fks');
  }

  // ----- Cycles -----

  /** A walk along foreign keys: each table references the next one. */
  ghost predicate IsWalk(p: seq<string>, ts: set<string>, fks: set<ForeignKey>) {
    && (forall i :: 0 <= i < |p| ==> p[i] in ts)
    && (forall i :: 0 <= i < |p| - 1 ==> ForeignKey(p[i], p[i + 1]) in fks)
  }

  ghost predicate IsCycle(p: seq<string>, ts: set<string>, fks: set<ForeignKey>) {
    |p| >= 2 && p[0] == p[|p| - 1] && IsWalk(p, ts, fks)
  }

  ghost predicate Acyclic(ts: set<string>, fks: set<ForeignKey>) {
    !exists p :: IsCycle(p, ts, fks)
  }

  ghost predicate ParentsFirst(r: seq<string>, ts: set<string>, fks: set<ForeignKey>) {
    forall i :: 0 <= i < |r| ==> ParentsBefore(r, ts, fks, {}, i)
  }

  lemma {:induction false} Pigeonhole(p: seq<string>, s: set<string>)
    requires forall x :: x in p ==> x in s
    requires |p| > |s|
    ensures exists i, j :: 0 <= i < j < |p| && p[i] == p[j]
    decreases |p|
  {
    var last := p[|p| - 1];
    var front := p[..|p| - 1];
    assert last in p;
    if last in front {
      var i :| 0 <= i < |front| && front[i] == last;
      assert p[i] == p[|p| - 1];
    } else {
      forall x | x in front ensures x in s - {last} {
        assert x in p;
      }
      Pigeonhole(front, s - {last});
      var i, j :| 0 <= i < j < |front| && front[i] == front[j];
      assert p[i] == p[j];
    }
  }

  /** From a left-over table the parents that are left over too can be followed for ever. */
  lemma {:induction false} LeftoverWalk(ts: set<string>, fks: set<ForeignKey>, t: string, n: nat)
    returns (p: seq<string>)
    requires t in ts && t !in QueueOrder(ts, fks, {})
    ensures |p| == n + 1 && p[0] == t && IsWalk(p, ts, fks)
    decreases n
  {
    if n == 0 {
      p := [t];
    } else {
      var parent := LeftoverHasLeftoverParent(ts, fks, t);
      var rest := LeftoverWalk(ts, fks, parent, n - 1);
      p := [t] + rest;
    }
  }

  /** Every table left to the fallback lies on a cycle or reaches one along its foreign keys. */
  lemma LeftoverReachesCycle(ts: set<string>, fks: set<ForeignKey>, t: string)
    returns (p: seq<string>, i: nat, j: nat)
    requires t in ts && t !in QueueOrder(ts, fks, {})
    ensures IsWalk(p, ts, fks) && p != [] && p[0] == t
    ensures i < j < |p| && IsCycle(p[i..j + 1], ts, fks)
  {
    p := LeftoverWalk(ts, fks, t, |ts|);
    Pigeonhole(p, ts);
    i, j :| 0 <= i < j < |p| && p[i] == p[j];
    var c := p[i..j + 1];
    forall k | 0 <= k < |c| - 1 ensures ForeignKey(c[k], c[k + 1]) in fks {
      assert c[k] == p[i + k] && c[k + 1] == p[i + k + 1];
    }
  }

  /** Along a walk the positions in a parents-first list strictly go down. */
  lemma {:induction false} WalkDescends(r: seq<string>, ts: set<string>, fks: set<ForeignKey>, p: seq<string>, a: nat)
    returns (b: nat)
    requires NoDuplicates(r) && ParentsFirst(r, ts, fks)
    requires IsWalk(p, ts, fks) && |p| >= 2 && a < |r| && r[a] == p[0]
    ensures b < a && r[b] == p[|p| - 1]
    decreases |p|
  {
    assert ForeignKey(p[0], p[1]) in fks;
    assert ParentsBefore(r, ts, fks, {}, a);
    assert ForeignKey(p[0], p[1]).referencedTable in {} + Elements(r[..a]);
    b :| 0 <= b < a && r[b] == p[1];
    if |p| > 2 {
      forall i | 0 <= i < |p[1..]| - 1 ensures ForeignKey(p[1..][i], p[1..][i + 1]) in fks {
        assert p[1..][i] == p[i + 1] && p[1..][i + 1] == p[i + 2];
      }
      b := WalkDescends(r, ts, fks, p[1..], b);
    }
  }

  /** Exactly when the promise "parents come before children" is kept for all tables. */
  lemma ParentsFirstIffAcyclic(tables: seq<string>, fks: set<ForeignKey>)
    ensures ParentsFirst(SortSpec(tables, fks), Elements(tables), fks) <==> Acyclic(Elements(tables), fks)
  {
    var ts := Elements(tables);
    var r := SortSpec(tables, fks);
    SortSound(tables, fks);
    if ParentsFirst(r, ts, fks) && !Acyclic(ts, fks) {
      var p :| IsCycle(p, ts, fks);
      assert p[0] in Elements(r);
      var a :| 0 <= a < |r| && r[a] == p[0];
      var b := WalkDescends(r, ts, fks, p, a);
      assert false;
    }
    if Acyclic(ts, fks) {
      var q := QueueOrder(ts, fks, {});
      forall t | t in ts ensures t in q {
        if t !in q {
          var p, i, j := LeftoverReachesCycle(ts, fks, t);
          assert false;
        }
      }
      QueueOrderSound(ts, fks, {});
      assert Elements(q) == ts;
    }
  }
}
