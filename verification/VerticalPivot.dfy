/** The flatten compactor's pivot: the JSON objects in the `_all` column become one nullable string
    column per key. */
module VerticalPivot {
  import opened Options

  /** A JSON null is a field without a value. */
  datatype Field = Field(key: string, value: Option<string>)

  /** A parsed cell: an object, a JSON value that is no object, or no JSON at all. */
  datatype Parsed = Object(fields: seq<Field>) | NotObject | Invalid

  type Cells = seq<Option<string>>

  /** The keys of a JSON object are distinct. */
  ghost predicate Distinct(fields: seq<Field>) {
    forall i, j :: 0 <= i < j < |fields| ==> fields[i].key != fields[j].key
  }

  function Keys(fields: seq<Field>): set<string> {
    if fields == [] then {} else Keys(fields[..|fields| - 1]) + {fields[|fields| - 1].key}
  }

  lemma {:induction false} KeysMember(fields: seq<Field>, k: string)
    requires k in Keys(fields)
    ensures exists i :: 0 <= i < |fields| && fields[i].key == k
  {
    if fields[|fields| - 1].key != k {
      KeysMember(fields[..|fields| - 1], k);
      var i :| 0 <= i < |fields| - 1 && fields[..|fields| - 1][i].key == k;
      assert fields[i].key == k;
    }
  }

  /** The non-null value of `k` in an object, if any. */
  function Cell(fields: seq<Field>, k: string): Option<string> {
    if fields == [] then None
    else if fields[|fields| - 1].key == k then fields[|fields| - 1].value
    else Cell(fields[..|fields| - 1], k)
  }

  lemma {:induction false} CellAt(fields: seq<Field>, i: nat)
    requires Distinct(fields) && i < |fields|
    ensures Cell(fields, fields[i].key) == fields[i].value
    decreases |fields|
  {
    if i < |fields| - 1 {
      CellAt(fields[..|fields| - 1], i);
    }
  }

  lemma {:induction false} CellAbsent(fields: seq<Field>, k: string)
    requires k !in Keys(fields)
    ensures Cell(fields, k) == None
    decreases |fields|
  {
    if fields != [] {
      CellAbsent(fields[..|fields| - 1], k);
    }
  }

  /** Keys in order of first appearance, which is the order of the new columns. */
  function FirstSeen(order: seq<string>, fields: seq<Field>): seq<string> {
    if fields == [] then order
    else
      var before := FirstSeen(order, fields[..|fields| - 1]);
      if fields[|fields| - 1].key in before then before else before + [fields[|fields| - 1].key]
  }

  function ColumnOrder(rows: seq<seq<Field>>): seq<string> {
    if rows == [] then [] else FirstSeen(ColumnOrder(rows[..|rows| - 1]), rows[|rows| - 1])
  }

  /** While row `i` is being added: the keys in `seen` already have their entry for it. */
  ghost predicate Partial(cols: map<string, Cells>, rows: seq<seq<Field>>, i: int, seen: set<string>)
    requires 0 <= i <= |rows|
  {
    && (forall k :: k in cols ==> |cols[k]| == if k in seen then i + 1 else i)
    && (forall k :: k in seen ==> i < |rows|)
    && (forall k, j :: k in cols && 0 <= j < |cols[k]| && j < |rows| ==> cols[k][j] == Cell(rows[j], k))
    && (forall k, j :: k !in cols && 0 <= j < i ==> Cell(rows[j], k) == None)
  }

  /** For every number of rows, the keys of the first so many rows come before all others. */
  lemma {:induction false} KeysOfFirstRows(rows: seq<seq<Field>>, n: nat)
    requires n <= |rows|
    ensures ColumnOrder(rows[..n]) <= ColumnOrder(rows)
    ensures forall k :: k in ColumnOrder(rows[..n]) <==> exists i :: 0 <= i < n && k in Keys(rows[i])
    decreases |rows|
  {
    if n == |rows| {
      assert rows[..n] == rows;
      if n > 0 {
        var front := rows[..n - 1];
        KeysOfFirstRows(front, n - 1);
        assert front[..n - 1] == front;
        FirstSeenAdds(ColumnOrder(front), rows[n - 1]);
        assert forall i :: 0 <= i < n - 1 ==> front[i] == rows[i];
      }
    } else {
      var front := rows[..|rows| - 1];
      KeysOfFirstRows(front, n);
      assert front[..n] == rows[..n];
      FirstSeenAdds(ColumnOrder(front), rows[|rows| - 1]);
      assert forall i :: 0 <= i < n ==> front[i] == rows[i];
    }
  }

  lemma {:induction false} FirstSeenAdds(order: seq<string>, fields: seq<Field>)
    ensures order <= FirstSeen(order, fields)
    ensures forall k :: k in FirstSeen(order, fields) <==> k in order || k in Keys(fields)
  {
    if fields != [] { FirstSeenAdds(order, fields[..|fields| - 1]); }
  }

  ghost predicate Ordered(order: seq<string>, cols: map<string, Cells>) {
    && (forall k :: k in cols <==> k in order)
    && (forall i, j :: 0 <= i < j < |order| ==> order[i] != order[j])
  }

  /** Every column has one entry per row: the row's value for its key, or null. */
  ghost predicate Pivoted(cols: map<string, Cells>, rows: seq<seq<Field>>) {
    && (forall k :: k in cols ==> |cols[k]| == |rows|)
    && (forall k, j :: k in cols && 0 <= j < |rows| ==> cols[k][j] == Cell(rows[j], k))
    && (forall k, j :: k !in cols && 0 <= j < |rows| ==> Cell(rows[j], k) == None)
  }

  function Nulls(n: nat): (c: Cells)
    ensures |c| == n && forall j :: 0 <= j < n ==> c[j] == None
  {
    seq(n, _ => None)
  }

  /** One field of row `i`: a late key starts with `i` nulls. */
  function AddField(cols: map<string, Cells>, i: nat, f: Field): map<string, Cells> {
    cols[f.key := (if f.key in cols then cols[f.key] else Nulls(i)) + [f.value]]
  }

  lemma KeysStep(fields: seq<Field>, m: nat)
    requires m < |fields| && Distinct(fields)
    ensures Keys(fields[..m + 1]) == Keys(fields[..m]) + {fields[m].key}
    ensures fields[m].key !in Keys(fields[..m])
  {
    assert fields[..m + 1][..m] == fields[..m];
    if fields[m].key in Keys(fields[..m]) {
      KeysMember(fields[..m], fields[m].key);
      assert false;
    }
  }

  /** After the first `m` fields of row `i`. */
  ghost predicate RowInv(cols: map<string, Cells>, rows: seq<seq<Field>>, i: int, m: int)
    requires 0 <= i < |rows| && 0 <= m <= |rows[i]|
  {
    Partial(cols, rows, i, Keys(rows[i][..m])) && Keys(rows[i][..m]) <= cols.Keys
  }

  lemma AddFieldKeeps(cols: map<string, Cells>, rows: seq<seq<Field>>, i: nat, m: nat)
    requires i < |rows| && m < |rows[i]| && Distinct(rows[i]) && RowInv(cols, rows, i, m)
    ensures RowInv(AddField(cols, i, rows[i][m]), rows, i, m + 1)
  {
    KeysStep(rows[i], m);
    CellAt(rows[i], m);
  }

  lemma AddFieldOrdered(order: seq<string>, cols: map<string, Cells>, i: nat, f: Field)
    requires Ordered(order, cols)
    ensures Ordered(if f.key in cols then order else order + [f.key], AddField(cols, i, f))
  {
  }

  lemma FirstSeenStep(order: seq<string>, fields: seq<Field>, m: nat)
    requires m < |fields|
    ensures var before := FirstSeen(order, fields[..m]);
            FirstSeen(order, fields[..m + 1]) ==
            if fields[m].key in before then before else before + [fields[m].key]
  {
    assert fields[..m + 1][..m] == fields[..m];
  }

  /** The fields of row `i`; the keys of the row are its `inserted_fields`. */
  method AddRow(cols0: map<string, Cells>, order0: seq<string>, ghost rows: seq<seq<Field>>, i: nat, fields: seq<Field>)
    returns (cols: map<string, Cells>, order: seq<string>, inserted: set<string>)
    requires i < |rows| && rows[i] == fields && Distinct(fields)
    requires RowInv(cols0, rows, i, 0) && Ordered(order0, cols0)
    ensures RowInv(cols, rows, i, |fields|) && Ordered(order, cols)
    ensures order == FirstSeen(order0, fields) && inserted == Keys(fields)
  {
    cols, order, inserted := cols0, order0, {};
    for m := 0 to |fields|
      invariant inserted == Keys(fields[..m])
      invariant RowInv(cols, rows, i, m) && Ordered(order, cols)
      invariant order == FirstSeen(order0, fields[..m])
    {
      AddFieldKeeps(cols, rows, i, m);
      AddFieldOrdered(order, cols, i, fields[m]);
      KeysStep(fields, m);
      FirstSeenStep(order0, fields, m);
      order := if fields[m].key in cols then order else order + [fields[m].key];
      cols := AddField(cols, i, fields[m]);
      inserted := inserted + {fields[m].key};
    }
    assert fields[..|fields|] == fields;
  }

  function PadOne(cells: Cells, k: string, inserted: set<string>): Cells {
    if k in inserted then cells else cells + [None]
  }

  /** Columns without an entry for the current row get a null. */
  method PadMissing(cols0: map<string, Cells>, order: seq<string>, inserted: set<string>)
    returns (cols: map<string, Cells>)
    requires Ordered(order, cols0)
    ensures cols.Keys == cols0.Keys
    ensures forall k :: k in cols0 ==> cols[k] == PadOne(cols0[k], k, inserted)
  {
    cols := cols0;
    for m := 0 to |order|
      invariant cols.Keys == cols0.Keys
      invariant forall j :: 0 <= j < m ==> cols[order[j]] == PadOne(cols0[order[j]], order[j], inserted)
      invariant forall j :: m <= j < |order| ==> cols[order[j]] == cols0[order[j]]
    {
      if order[m] !in inserted {
        cols := cols[order[m] := cols[order[m]] + [None]];
      }
    }
    forall k | k in cols0 ensures cols[k] == PadOne(cols0[k], k, inserted) {
      var j :| 0 <= j < |order| && order[j] == k;
    }
  }

  lemma PadKeeps(cols0: map<string, Cells>, cols: map<string, Cells>, rows: seq<seq<Field>>, i: nat)
    requires i < |rows| && RowInv(cols0, rows, i, |rows[i]|) && cols.Keys == cols0.Keys
    requires forall k :: k in cols0 ==> cols[k] == PadOne(cols0[k], k, Keys(rows[i]))
    ensures Partial(cols, rows, i + 1, {})
  {
    assert rows[i][..|rows[i]|] == rows[i];
    forall k | k !in Keys(rows[i]) ensures Cell(rows[i], k) == None {
      CellAbsent(rows[i], k);
    }
    forall k | k in cols ensures |cols[k]| == i + 1 && forall j :: 0 <= j <= i ==> cols[k][j] == Cell(rows[j], k) {
      assert cols[k] == PadOne(cols0[k], k, Keys(rows[i]));
    }
  }

  method Pivot(rows: seq<seq<Field>>) returns (order: seq<string>, cols: map<string, Cells>)
    requires forall i :: 0 <= i < |rows| ==> Distinct(rows[i])
    ensures Pivoted(cols, rows) && Ordered(order, cols) && order == ColumnOrder(rows)
  {
    order, cols := [], map[];
    for i := 0 to |rows|
      invariant Partial(cols, rows, i, {}) && Ordered(order, cols)
      invariant order == ColumnOrder(rows[..i])
    {
      assert rows[..i + 1][..i] == rows[..i];
      assert rows[i][..0] == [];
      var inserted;
      cols, order, inserted := AddRow(cols, order, rows, i, rows[i]);
      ghost var cols0 := cols;
      cols := PadMissing(cols, order, inserted);
      PadKeeps(cols0, cols, rows, i);
    }
    assert rows[..|rows|] == rows;
  }

  // ----- The whole record batch -----

  datatype Column = Column(name: string, cells: Cells)

  /** The code panics on a JSON value that is no object. */
  datatype Result = Err | Panic | Batches(batches: seq<seq<Column>>)

  /** The object of one `_all` cell; an empty or null cell counts as an empty object. */
  function ParseCell(cell: Option<string>, parse: string -> Parsed): Parsed {
    if cell.None? || cell.value == "" then Object([]) else parse(cell.value)
  }

  /** The fields of a cell: none for a null or empty one, otherwise those of the parsed object. */
  predicate RowOf(cell: Option<string>, parse: string -> Parsed, row: seq<Field>) {
    match cell
    case None => row == []
    case Some(text) => if text == "" then row == [] else parse(text) == Object(row)
  }

  ghost predicate ParsesTo(cells: Cells, parse: string -> Parsed, rows: seq<seq<Field>>) {
    |rows| == |cells| && forall i :: 0 <= i < |cells| ==> RowOf(cells[i], parse, rows[i])
  }

  /** The cell has a text that does not parse to an object. */
  predicate Bad(cell: Option<string>, parse: string -> Parsed) {
    cell.Some? && cell.value != "" && !parse(cell.value).Object?
  }

  /** The parse results are JSON objects, or failures. */
  ghost predicate ObjectParser(parse: string -> Parsed) {
    forall s :: parse(s).Object? ==> Distinct(parse(s).fields)
  }

  /** The first cell that is no object. */
  ghost predicate FirstBad(cells: Cells, parse: string -> Parsed, i: nat) {
    && i < |cells| && Bad(cells[i], parse)
    && forall j :: 0 <= j < i ==> !Bad(cells[j], parse)
  }

  /** The first cell that is no object is of this kind. */
  ghost predicate FailsWith(cells: Cells, parse: string -> Parsed, kind: Parsed) {
    exists i: nat :: FirstBad(cells, parse, i) && parse(cells[i].value) == kind
  }

  lemma FailsWithFirst(cells: Cells, parse: string -> Parsed, i: nat, kind: Parsed)
    requires FirstBad(cells, parse, i)
    ensures FailsWith(cells, parse, kind) <==> parse(cells[i].value) == kind
  {
    if FailsWith(cells, parse, kind) {
      var j: nat :| FirstBad(cells, parse, j) && parse(cells[j].value) == kind;
      assert i == j;
    }
  }

  method ParseAll(cells: Cells, parse: string -> Parsed) returns (bad: Option<nat>, rows: seq<seq<Field>>)
    requires ObjectParser(parse)
    ensures bad.Some? ==> FirstBad(cells, parse, bad.value)
    ensures bad.None? ==> ParsesTo(cells, parse, rows) && forall i :: 0 <= i < |rows| ==> Distinct(rows[i])
  {
    rows := [];
    for i := 0 to |cells|
      invariant |rows| == i
      invariant forall j :: 0 <= j < i ==> RowOf(cells[j], parse, rows[j]) && Distinct(rows[j])
    {
      match ParseCell(cells[i], parse) {
        case Object(fields) => rows := rows + [fields];
        case _ => return Some(i), [];
      }
    }
    bad := None;
  }

  /** One entry per row: the row's value for the column's key, or null. */
  ghost predicate ColumnOf(column: Column, key: string, rows: seq<seq<Field>>) {
    && column.name == key && |column.cells| == |rows|
    && forall i :: 0 <= i < |rows| ==> column.cells[i] == Cell(rows[i], key)
  }

  /** The output batch: other columns untouched, `_all` nulled, then one column per key. */
  ghost predicate PivotedBatch(columns: seq<Column>, all: nat, rows: seq<seq<Field>>, out: seq<Column>)
    requires all < |columns|
  {
    var order := ColumnOrder(rows);
    && |out| == |columns| + |order|
    && (forall c :: 0 <= c < |columns| && c != all ==> out[c] == columns[c])
    && out[all] == Column(columns[all].name, Nulls(|rows|))
    && (forall c :: 0 <= c < |order| ==> ColumnOf(out[|columns| + c], order[c], rows))
    && (forall k, i :: k !in order && 0 <= i < |rows| ==> Cell(rows[i], k) == None)
  }

  method GenerateVerticalPartition(columns: seq<Column>, all: Option<nat>, parse: string -> Parsed)
    returns (result: Result, ghost rows: seq<seq<Field>>)
    requires ObjectParser(parse)
    requires columns != [] && (all.Some? ==> all.value < |columns|)
    requires forall c :: 0 <= c < |columns| ==> |columns[c].cells| == |columns[0].cells|
    ensures |columns[0].cells| == 0 ==> result == Batches([])
    ensures |columns[0].cells| > 0 && all.None? ==> result == Batches([columns])
    ensures |columns[0].cells| > 0 && all.Some? ==>
              && (result.Err? <==> FailsWith(columns[all.value].cells, parse, Invalid))
              && (result.Panic? <==> FailsWith(columns[all.value].cells, parse, NotObject))
    ensures |columns[0].cells| > 0 && all.Some? && result.Batches? ==>
              && ParsesTo(columns[all.value].cells, parse, rows)
              && |result.batches| == 1 && PivotedBatch(columns, all.value, rows, result.batches[0])
  {
    rows := [];
    if |columns[0].cells| == 0 { return Batches([]), rows; }
    if all.None? { return Batches([columns]), rows; }
    var cells := columns[all.value].cells;
    var bad, parsed := ParseAll(cells, parse);
    rows := parsed;
    if bad.Some? {
      FailsWithFirst(cells, parse, bad.value, Invalid);
      FailsWithFirst(cells, parse, bad.value, NotObject);
      return if ParseCell(cells[bad.value], parse).Invalid? then Err else Panic, rows;
    }
    var out := PivotColumns(columns, all.value, parsed);
    result := Batches([out]);
  }

  /** The columns of the output, for parsed cells. */
  method PivotColumns(columns: seq<Column>, all: nat, rows: seq<seq<Field>>) returns (out: seq<Column>)
    requires all < |columns| && forall i :: 0 <= i < |rows| ==> Distinct(rows[i])
    ensures PivotedBatch(columns, all, rows, out)
  {
    var order, cols := Pivot(rows);
    out := columns[all := Column(columns[all].name, Nulls(|rows|))];
    for c := 0 to |order|
      invariant |out| == |columns| + c
      invariant forall d :: 0 <= d < |columns| ==>
                  out[d] == if d == all then Column(columns[d].name, Nulls(|rows|)) else columns[d]
      invariant forall d :: 0 <= d < c ==> out[|columns| + d] == Column(order[d], cols[order[d]])
    {
      out := out + [Column(order[c], cols[order[c]])];
    }
  }

  /** The non-null fields of an object. */
  ghost function NonNull(fields: seq<Field>): map<string, string> {
    map k | k in Keys(fields) && Cell(fields, k).Some? :: Cell(fields, k).value
  }

  /** Each row's non-null fields can be read back from the new columns. */
  lemma RowRecoverable(columns: seq<Column>, all: nat, rows: seq<seq<Field>>, out: seq<Column>, i: nat, k: string)
    requires all < |columns| && i < |rows| && PivotedBatch(columns, all, rows, out)
    ensures k in NonNull(rows[i]) <==>
            exists c :: |columns| <= c < |out| && out[c].name == k && |out[c].cells| == |rows| && out[c].cells[i].Some?
    ensures forall c :: |columns| <= c < |out| && out[c].name == k ==>
              |out[c].cells| == |rows| &&
              out[c].cells[i] == (if k in NonNull(rows[i]) then Some(NonNull(rows[i])[k]) else None)
  {
    var order := ColumnOrder(rows);
    if k !in Keys(rows[i]) {
      CellAbsent(rows[i], k);
    }
    forall c | |columns| <= c < |out| && out[c].name == k
      ensures |out[c].cells| == |rows| && out[c].cells[i] == Cell(rows[i], k)
    {
      var d := c - |columns|;
      assert 0 <= d < |order| && order[d] in order && c == |columns| + d;
      assert ColumnOf(out[|columns| + d], order[d], rows);
    }
    if k in order {
      var c :| 0 <= c < |order| && order[c] == k;
      assert ColumnOf(out[|columns| + c], order[c], rows);
    }
  }
}
