/** Keyed feature deltas over immutable parents: reading any projection of a chain of layers, and writing one
    (ima/dataset_delta.py). */
module DeltaTables {
  import opened RowGroups
  import opened Sums

  type Cell = int
  type Row = map<string, Cell>

  datatype Option<+T> = None | Some(value: T)

  datatype Error =
    | Absent | Cycle | MissingColumns | Position | Changed | Projection | Population | Identity | Moved
    | Declaration | Existing | ReadBack

  datatype Result<+T> = Ok(value: T) | Err(error: Error)

  datatype Frame = Frame(columns: seq<string>, rows: seq<Row>)

  datatype Parquet = Parquet(columns: seq<string>, groups: seq<seq<Row>>) {
    function Rows(): seq<Row> { Flatten(groups) }
  }

  datatype Descriptor = Descriptor(
    parent: string, parentChecksum: int, deltaChecksum: int,
    columns: seq<string>, deltaColumns: seq<string>, rows: nat, keys: seq<Row>)

  datatype Content = Table(parquet: Parquet) | Layer(descriptor: Descriptor, delta: Parquet, observedChecksum: int)

  /** A stored feature table with its checksum, and the ordered runner identities its manifest declares, if any. */
  datatype Entry = Entry(checksum: int, rowKeys: Option<seq<Row>>, content: Content)

  type Store = map<string, Entry>

  const KEYS: seq<string> := ["race_id", "horse_no"]
  const IDENTITY: seq<string> := ["race_id", "horse_id"]

  // ---- selecting rows and columns ----

  predicate Contained(xs: seq<string>, ys: seq<string>) {
    forall x | x in xs :: x in ys
  }

  function Pick(row: Row, columns: seq<string>): Row {
    map c | c in columns && c in row :: row[c]
  }

  function Project(rows: seq<Row>, columns: seq<string>): (projected: seq<Row>)
    ensures |projected| == |rows| && forall i :: 0 <= i < |rows| ==> projected[i] == Pick(rows[i], columns)
  {
    seq(|rows|, i requires 0 <= i < |rows| => Pick(rows[i], columns))
  }

  predicate Within(positions: Option<seq<int>>, n: nat) {
    positions.Some? ==> InRange(positions.value, n)
  }

  function Chosen<T>(rows: seq<T>, positions: Option<seq<int>>): seq<T>
    requires Within(positions, |rows|)
  {
    if positions.None? then rows else Take(rows, positions.value)
  }

  /** Names of `xs` that are, or are not, in `delta`, keys aside. */
  function Sift(xs: seq<string>, inDelta: bool, delta: seq<string>): seq<string> {
    if xs == [] then []
    else
      var rest := Sift(xs[..|xs|-1], inDelta, delta);
      var x := xs[|xs|-1];
      if (x in delta) == inDelta && x !in KEYS then rest + [x] else rest
  }

  /** What one layer asks of its parent (`false`) or of its own delta (`true`): the keys, then the wanted columns. */
  function Wanted(requested: seq<string>, inDelta: bool, delta: seq<string>): seq<string> {
    KEYS + Sift(requested, inDelta, delta)
  }

  /** Delta columns replace or extend the parent's, row by row. */
  function Overlay(base: Row, added: Row, requested: seq<string>, delta: seq<string>): Row {
    map c | c in requested && c in (if c in delta then added else base) :: (if c in delta then added else base)[c]
  }

  function Combine(base: seq<Row>, added: seq<Row>, requested: seq<string>, delta: seq<string>): (rows: seq<Row>)
    requires |base| == |added|
    ensures |rows| == |base| && forall i :: 0 <= i < |rows| ==> rows[i] == Overlay(base[i], added[i], requested, delta)
  {
    seq(|base|, i requires 0 <= i < |base| => Overlay(base[i], added[i], requested, delta))
  }

  // ---- reading ----

  function ReadParquet(p: Parquet, columns: Option<seq<string>>, positions: Option<seq<int>>): Result<Frame> {
    var requested := if columns.None? then p.columns else columns.value;
    if !Contained(requested, p.columns) then Err(MissingColumns)
    else if !Within(positions, |p.Rows()|) then Err(Position)
    else Ok(Frame(requested, Project(Chosen(p.Rows(), positions), requested)))
  }

  function KeyColumns(rowKeys: Option<seq<Row>>): seq<string> {
    if rowKeys.Some? then KEYS + ["horse_id"] else KEYS
  }

  /** The alignment checks that every read makes over the whole population, whatever it projects. */
  function KeyObjection(d: Descriptor, rowKeys: Option<seq<Row>>, base: seq<Row>, delta: seq<Row>): Option<Error> {
    if !Distinct(Project(base, KEYS)) || !Distinct(Project(delta, KEYS)) || |base| != d.rows || |delta| != d.rows
    then Some(Population)
    else if Project(base, KEYS) != Project(delta, KEYS) then Some(Population)
    else if Project(base, KEYS) != d.keys then Some(Identity)
    else if rowKeys.Some? && rowKeys.value != Project(base, IDENTITY) then Some(Identity)
    else None
  }

  function Merged(requested: seq<string>, delta: seq<string>, keys: seq<Row>, base: seq<Row>, added: seq<Row>): Result<Frame> {
    if Project(base, KEYS) != keys || Project(added, KEYS) != keys then Err(Moved)
    else
      assert |base| == |Project(base, KEYS)| == |Project(added, KEYS)| == |added|;
      Ok(Frame(requested, Combine(base, added, requested, delta)))
  }

  /** `read_feature_table`: `seen` holds the layers above this one. */
  function Read(store: Store, path: string, columns: Option<seq<string>>, positions: Option<seq<int>>, seen: set<string>)
    : Result<Frame>
    decreases store.Keys - seen
  {
    if path !in store then Err(Absent)
    else match store[path].content
    case Table(p) =>
      if !Within(positions, |p.Rows()|) then Err(Position) else ReadParquet(p, columns, positions)
    case Layer(d, delta, observed) =>
      if path in seen then Err(Cycle)
      else if d.parent !in store then Err(Absent)
      else if store[d.parent].checksum != d.parentChecksum || observed != d.deltaChecksum then Err(Changed)
      else
        var requested := if columns.None? then d.columns else columns.value;
        if !Distinct(requested) || !Contained(requested, d.columns) then Err(Projection)
        else
          var rowKeys := store[d.parent].rowKeys;
          var baseKeys := Read(store, d.parent, Some(KeyColumns(rowKeys)), None, seen + {path});
          if baseKeys.Err? then baseKeys
          else
            var deltaKeys := ReadParquet(delta, Some(KEYS), None);
            if deltaKeys.Err? then deltaKeys
            else
              var objection := KeyObjection(d, rowKeys, baseKeys.value.rows, deltaKeys.value.rows);
              if objection.Some? then Err(objection.value)
              else if !Within(positions, |baseKeys.value.rows|) then Err(Position)
              else
                var base := Read(store, d.parent, Some(Wanted(requested, false, d.deltaColumns)), positions, seen + {path});
                if base.Err? then base
                else
                  var added := ReadParquet(delta, Some(Wanted(requested, true, d.deltaColumns)), positions);
                  if added.Err? then added
                  else Merged(requested, d.deltaColumns, Chosen(Project(baseKeys.value.rows, KEYS), positions),
                    base.value.rows, added.value.rows)
  }

  // ---- column lists ----

  lemma {:induction false} SiftMembers(xs: seq<string>, inDelta: bool, delta: seq<string>)
    ensures forall c :: c in Sift(xs, inDelta, delta) <==> c in xs && (c in delta) == inDelta && c !in KEYS
    ensures Distinct(xs) ==> Distinct(Sift(xs, inDelta, delta))
  {
    if xs != [] {
      var n := |xs| - 1;
      SiftMembers(xs[..n], inDelta, delta);
      assert xs == xs[..n] + [xs[n]];
    }
  }

  lemma WantedMembers(xs: seq<string>, inDelta: bool, delta: seq<string>)
    ensures forall c :: c in Wanted(xs, inDelta, delta) <==> c in KEYS || (c in xs && (c in delta) == inDelta)
    ensures Distinct(xs) ==> Distinct(Wanted(xs, inDelta, delta))
  {
    SiftMembers(xs, inDelta, delta);
    assert Distinct(KEYS) by { assert KEYS[0] != KEYS[1]; }
    if Distinct(xs) { DistinctAppend(KEYS, Sift(xs, inDelta, delta)); }
  }

  lemma PickPick(row: Row, outer: seq<string>, inner: seq<string>)
    requires Contained(inner, outer)
    ensures Pick(Pick(row, outer), inner) == Pick(row, inner)
  {}

  lemma ProjectProject(rows: seq<Row>, outer: seq<string>, inner: seq<string>)
    requires Contained(inner, outer)
    ensures Project(Project(rows, outer), inner) == Project(rows, inner)
  {
    hide Pick, Contained;
    forall i | 0 <= i < |rows| { PickPick(rows[i], outer, inner); }
  }

  lemma ProjectChosen(rows: seq<Row>, positions: Option<seq<int>>, columns: seq<string>)
    requires Within(positions, |rows|)
    ensures Project(Chosen(rows, positions), columns) == Chosen(Project(rows, columns), positions)
  {
    hide Pick;
  }

  /** Combining what was selected is selecting from what was combined. */
  lemma OverlaySelect(base: Row, added: Row, requested: seq<string>, delta: seq<string>, fewer: seq<string>)
    requires Contained(fewer, requested)
    ensures Overlay(Pick(base, Wanted(fewer, false, delta)), Pick(added, Wanted(fewer, true, delta)), fewer, delta)
         == Pick(Overlay(base, added, requested, delta), fewer)
  {
    hide Wanted;
    WantedMembers(fewer, false, delta);
    WantedMembers(fewer, true, delta);
  }

  lemma CombineSelect(base: seq<Row>, added: seq<Row>, requested: seq<string>, delta: seq<string>, fewer: seq<string>,
      positions: Option<seq<int>>)
    requires |base| == |added| && Contained(fewer, requested) && Within(positions, |base|)
    ensures Combine(Project(Chosen(base, positions), Wanted(fewer, false, delta)),
              Project(Chosen(added, positions), Wanted(fewer, true, delta)), fewer, delta)
         == Project(Chosen(Combine(base, added, requested, delta), positions), fewer)
  {
    hide Pick, Wanted, Overlay, Contained;
    forall i | 0 <= i < |Chosen(base, positions)| {
      OverlaySelect(Chosen(base, positions)[i], Chosen(added, positions)[i], requested, delta, fewer);
    }
  }

  // ---- projected reads ----

  /** What a narrower read of the same path must give, once `full` has been read. */
  function Selected(full: Frame, columns: seq<string>, positions: Option<seq<int>>): Result<Frame> {
    if !Within(positions, |full.rows|) then Err(Position)
    else Ok(Frame(columns, Project(Chosen(full.rows, positions), columns)))
  }

  lemma ParquetSelect(p: Parquet, columns: seq<string>, fewer: seq<string>, positions: Option<seq<int>>)
    requires ReadParquet(p, Some(columns), None).Ok? && Contained(fewer, columns)
    ensures ReadParquet(p, Some(fewer), positions) == Selected(ReadParquet(p, Some(columns), None).value, fewer, positions)
  {
    hide Pick;
    var rows := p.Rows();
    if Within(positions, |rows|) {
      ProjectChosen(rows, positions, columns);
      ProjectProject(Chosen(rows, positions), columns, fewer);
    }
  }

  /** If all of `columns` can be read, then any distinct part of them can be read at any valid positions, and the
      result is the selection; invalid positions are refused. */
  lemma {:induction false} ProjectedRead(store: Store, path: string, columns: seq<string>, fewer: seq<string>,
      positions: Option<seq<int>>, seen: set<string>)
    requires Read(store, path, Some(columns), None, seen).Ok? && Distinct(fewer) && Contained(fewer, columns)
    ensures Read(store, path, Some(fewer), positions, seen)
         == Selected(Read(store, path, Some(columns), None, seen).value, fewer, positions)
    decreases store.Keys - seen
  {
    match store[path].content
    case Table(p) => ParquetSelect(p, columns, fewer, positions);
    case Layer(d, delta, _) =>
      var below := seen + {path};
      var delta' := d.deltaColumns;
      var base := Read(store, d.parent, Some(Wanted(columns, false, delta')), None, below).value;
      var added := ReadParquet(delta, Some(Wanted(columns, true, delta')), None).value;
      WantedMembers(columns, false, delta');
      WantedMembers(columns, true, delta');
      WantedMembers(fewer, false, delta');
      WantedMembers(fewer, true, delta');
      var keys := Project(Read(store, d.parent, Some(KeyColumns(store[d.parent].rowKeys)), None, below).value.rows, KEYS);
      MergedSize(columns, delta', keys, base.rows, added.rows);
      ProjectedRead(store, d.parent, Wanted(columns, false, delta'), Wanted(fewer, false, delta'), positions, below);
      ParquetSelect(delta, Wanted(columns, true, delta'), Wanted(fewer, true, delta'), positions);
      if Within(positions, |keys|) {
        LayerSelect(columns, delta', keys, base.rows, added.rows, fewer, positions);
      }
  }

  lemma MergedSize(columns: seq<string>, delta: seq<string>, keys: seq<Row>, base: seq<Row>, added: seq<Row>)
    requires Merged(columns, delta, keys, base, added).Ok?
    ensures |base| == |added| == |keys| == |Merged(columns, delta, keys, base, added).value.rows|
  {
    assert |base| == |Project(base, KEYS)| == |Project(added, KEYS)| == |added|;
  }

  lemma LayerSelect(columns: seq<string>, delta: seq<string>, keys: seq<Row>, base: seq<Row>, added: seq<Row>,
      fewer: seq<string>, positions: Option<seq<int>>)
    requires Merged(columns, delta, keys, base, added).Ok? && Contained(fewer, columns)
    requires Within(positions, |keys|)
    ensures |base| == |added| == |keys|
    ensures Merged(fewer, delta, Chosen(keys, positions), Project(Chosen(base, positions), Wanted(fewer, false, delta)),
              Project(Chosen(added, positions), Wanted(fewer, true, delta)))
         == Selected(Merged(columns, delta, keys, base, added).value, fewer, positions)
  {
    hide Wanted, Contained, Overlay, Pick;
    assert |base| == |Project(base, KEYS)| == |Project(added, KEYS)| == |added|;
    CombineSelect(base, added, columns, delta, fewer, positions);
    KeysSurvive(base, positions, fewer, false, delta);
    KeysSurvive(added, positions, fewer, true, delta);
  }

  lemma KeysSurvive(rows: seq<Row>, positions: Option<seq<int>>, fewer: seq<string>, inDelta: bool, delta: seq<string>)
    requires Within(positions, |rows|)
    ensures Project(Project(Chosen(rows, positions), Wanted(fewer, inDelta, delta)), KEYS)
         == Chosen(Project(rows, KEYS), positions)
  {
    hide Wanted, Pick;
    WantedMembers(fewer, inDelta, delta);
    ProjectProject(Chosen(rows, positions), Wanted(fewer, inDelta, delta), KEYS);
    ProjectChosen(rows, positions, KEYS);
  }

  // ---- the reader, step by step ----

  ghost predicate WellShaped(p: Parquet) {
    forall r | r in p.Rows() :: forall c :: c in r <==> c in p.columns
  }

  /** Every stored table holds a value for each of its columns in each of its rows, and no others. */
  ghost predicate WellFormed(store: Store) {
    forall path | path in store ::
      match store[path].content
      case Table(p) => WellShaped(p)
      case Layer(_, delta, _) => WellShaped(delta)
  }

  function ProjectGroups(groups: seq<seq<Row>>, columns: seq<string>): (g: seq<seq<Row>>)
    ensures |g| == |groups| && forall i :: 0 <= i < |groups| ==> g[i] == Project(groups[i], columns)
  {
    seq(|groups|, i requires 0 <= i < |groups| => Project(groups[i], columns))
  }

  lemma {:induction false} FlattenProject(groups: seq<seq<Row>>, columns: seq<string>)
    ensures Flatten(ProjectGroups(groups, columns)) == Project(Flatten(groups), columns)
  {
    hide Pick;
    if groups != [] {
      var n := |groups| - 1;
      FlattenProject(groups[..n], columns);
      assert ProjectGroups(groups, columns)[..n] == ProjectGroups(groups[..n], columns);
    }
  }

  /** `_read_parquet_positions`: only touched row groups are read, and only the requested columns of them. */
  method ReadParquetPositions(p: Parquet, columns: Option<seq<string>>, positions: Option<seq<int>>)
    returns (r: Result<Frame>)
    ensures r == ReadParquet(p, columns, positions)
  {
    var requested := if columns.None? then p.columns else columns.value;
    if !Contained(requested, p.columns) { return Err(MissingColumns); }
    var groups := ProjectGroups(p.groups, requested);
    FlattenProject(p.groups, requested);
    if positions.None? { return Ok(Frame(requested, Flatten(groups))); }
    if !InRange(positions.value, |p.Rows()|) { return Err(Position); }
    ProjectChosen(p.Rows(), positions, requested);
    if positions.value == [] { return Ok(Frame(requested, [])); }
    var rows := TakeRows(groups, positions.value);
    return Ok(Frame(requested, rows));
  }

  /** One row while the delta's columns are being assigned over the parent's. */
  ghost predicate AssignedUpTo(row: Row, base: Row, added: Row, done: seq<string>, delta: seq<string>) {
    && (forall c :: c in row <==> c in base || (c in done && c in delta))
    && (forall c | c in row :: if c in done && c in delta then c in added && row[c] == added[c]
                               else c in base && row[c] == base[c])
  }

  method AssignColumns(base: seq<Row>, added: seq<Row>, requested: seq<string>, delta: seq<string>) returns (rows: seq<Row>)
    requires |base| == |added|
    requires forall i, c :: 0 <= i < |added| && c in requested && c in delta ==> c in added[i]
    ensures rows == Combine(base, added, requested, delta)
  {
    var result := base;
    for k := 0 to |requested|
      invariant |result| == |base|
      invariant forall i :: 0 <= i < |base| ==> AssignedUpTo(result[i], base[i], added[i], requested[..k], delta)
    {
      var name := requested[k];
      assert requested[..k + 1] == requested[..k] + [name];
      if name in delta {
        result := seq(|result|, i requires 0 <= i < |result| => result[i][name := added[i][name]]);
      }
    }
    assert requested[..|requested|] == requested;
    rows := Project(result, requested);
    forall i | 0 <= i < |base| { AssignedIsOverlay(result[i], base[i], added[i], requested, delta); }
  }

  lemma AssignedIsOverlay(row: Row, base: Row, added: Row, requested: seq<string>, delta: seq<string>)
    requires AssignedUpTo(row, base, added, requested, delta)
    requires forall c :: c in requested && c in delta ==> c in added
    ensures Pick(row, requested) == Overlay(base, added, requested, delta)
  {}

  lemma AddedHasColumns(p: Parquet, columns: seq<string>, positions: Option<seq<int>>)
    requires WellShaped(p) && ReadParquet(p, Some(columns), positions).Ok?
    ensures var rows := ReadParquet(p, Some(columns), positions).value.rows;
            forall i, c :: 0 <= i < |rows| && c in columns ==> c in rows[i]
  {
    var rows := Chosen(p.Rows(), positions);
    forall i | 0 <= i < |rows| ensures rows[i] in p.Rows() {}
  }

  method ReadFeatureTable(store: Store, path: string, columns: Option<seq<string>>, positions: Option<seq<int>>,
      seen: set<string>) returns (r: Result<Frame>)
    requires WellFormed(store)
    ensures r == Read(store, path, columns, positions, seen)
    decreases store.Keys - seen
  {
    hide WellShaped, Pick, Overlay, Project, Wanted, Contained, KeyObjection, Chosen;
    if path !in store { return Err(Absent); }
    match store[path].content {
      case Table(p) =>
        if !Within(positions, |p.Rows()|) { return Err(Position); }
        r := ReadParquetPositions(p, columns, positions);
        return;
      case Layer(d, delta, observed) =>
        if path in seen { return Err(Cycle); }
        var below := seen + {path};
        if d.parent !in store { return Err(Absent); }
        if store[d.parent].checksum != d.parentChecksum || observed != d.deltaChecksum { return Err(Changed); }
        var requested := if columns.None? then d.columns else columns.value;
        if !Distinct(requested) || !Contained(requested, d.columns) { return Err(Projection); }
        var rowKeys := store[d.parent].rowKeys;
        var baseKeys := ReadFeatureTable(store, d.parent, Some(KeyColumns(rowKeys)), None, below);
        if baseKeys.Err? { return baseKeys; }
        var deltaKeys := ReadParquetPositions(delta, Some(KEYS), None);
        if deltaKeys.Err? { return deltaKeys; }
        var objection := KeyObjection(d, rowKeys, baseKeys.value.rows, deltaKeys.value.rows);
        if objection.Some? { return Err(objection.value); }
        if !Within(positions, |baseKeys.value.rows|) { return Err(Position); }
        var base := ReadFeatureTable(store, d.parent, Some(Wanted(requested, false, d.deltaColumns)), positions, below);
        if base.Err? { return base; }
        var added := ReadParquetPositions(delta, Some(Wanted(requested, true, d.deltaColumns)), positions);
        if added.Err? { return added; }
        var keys := Chosen(Project(baseKeys.value.rows, KEYS), positions);
        if Project(base.value.rows, KEYS) != keys || Project(added.value.rows, KEYS) != keys { return Err(Moved); }
        WantedMembers(requested, true, d.deltaColumns);
        AddedHasColumns(delta, Wanted(requested, true, d.deltaColumns), positions);
        assert |base.value.rows| == |Project(base.value.rows, KEYS)| == |added.value.rows|;
        var rows := AssignColumns(base.value.rows, added.value.rows, requested, d.deltaColumns);
        return Ok(Frame(requested, rows));
    }
  }

  // ---- the newest layer wins ----

  /** The value of a column in a row of the chain at `path`: the newest layer holding the column decides. */
  function Newest(store: Store, path: string, column: string, row: nat, seen: set<string>): Option<Cell>
    decreases store.Keys - seen
  {
    if path !in store then None
    else match store[path].content
    case Table(p) => CellOf(p, column, row)
    case Layer(d, delta, _) =>
      if path in seen then None
      else if column in d.deltaColumns then CellOf(delta, column, row)
      else Newest(store, d.parent, column, row, seen + {path})
  }

  function CellOf(p: Parquet, column: string, row: nat): Option<Cell> {
    if row < |p.Rows()| && column in p.Rows()[row] then Some(p.Rows()[row][column]) else None
  }

  function PositionOf(positions: Option<seq<int>>, i: nat): int {
    if positions.None? then i else if i < |positions.value| then positions.value[i] else 0
  }

  /** Each cell of a successful read, of whatever columns and positions, is the newest layer's value. */
  lemma {:induction false} NewestLayerWins(store: Store, path: string, columns: Option<seq<string>>,
      positions: Option<seq<int>>, seen: set<string>, i: nat, column: string)
    requires WellFormed(store) && Read(store, path, columns, positions, seen).Ok?
    requires i < |Read(store, path, columns, positions, seen).value.rows|
    requires column in Read(store, path, columns, positions, seen).value.columns
    ensures var row := Read(store, path, columns, positions, seen).value.rows[i];
            && PositionOf(positions, i) >= 0
            && column in row && Some(row[column]) == Newest(store, path, column, PositionOf(positions, i), seen)
    decreases store.Keys - seen
  {
    hide WellShaped, Pick, Overlay, Project, Wanted, Contained, KeyObjection, Chosen;
    match store[path].content
    case Table(p) => ParquetCell(p, columns, positions, i, column);
    case Layer(d, delta, _) =>
      var below := seen + {path};
      var requested := if columns.None? then d.columns else columns.value;
      var baseWanted, addedWanted := Wanted(requested, false, d.deltaColumns), Wanted(requested, true, d.deltaColumns);
      var base := Read(store, d.parent, Some(baseWanted), positions, below).value;
      var added := ReadParquet(delta, Some(addedWanted), positions).value;
      var keys := Chosen(Project(Read(store, d.parent, Some(KeyColumns(store[d.parent].rowKeys)), None, below).value.rows, KEYS),
        positions);
      MergedSize(requested, d.deltaColumns, keys, base.rows, added.rows);
      WantedMembers(requested, false, d.deltaColumns);
      WantedMembers(requested, true, d.deltaColumns);
      ReadColumns(store, d.parent, Some(baseWanted), positions, below);
      if column in d.deltaColumns {
        ParquetCell(delta, Some(addedWanted), positions, i, column);
      } else {
        NewestLayerWins(store, d.parent, Some(baseWanted), positions, below, i, column);
      }
      MergedCell(requested, d.deltaColumns, keys, base.rows, added.rows, i, column);
  }

  lemma MergedCell(requested: seq<string>, delta: seq<string>, keys: seq<Row>, base: seq<Row>, added: seq<Row>, i: nat, c: string)
    requires Merged(requested, delta, keys, base, added).Ok? && i < |base| == |added| && c in requested
    requires c in if c in delta then added[i] else base[i]
    ensures i < |Merged(requested, delta, keys, base, added).value.rows|
    ensures var row := Merged(requested, delta, keys, base, added).value.rows[i];
            c in row && row[c] == (if c in delta then added[i] else base[i])[c]
  {}

  lemma ReadColumns(store: Store, path: string, columns: Option<seq<string>>, positions: Option<seq<int>>, seen: set<string>)
    requires Read(store, path, columns, positions, seen).Ok?
    ensures Read(store, path, columns, positions, seen).value.columns == if columns.Some? then columns.value else Names(store, path)
    ensures Contained(Read(store, path, columns, positions, seen).value.columns, Names(store, path))
  {
    hide WellShaped, Pick, Overlay, Project, Wanted, KeyObjection, Chosen;
  }

  /** The columns a stored path offers. */
  function Names(store: Store, path: string): seq<string> {
    if path !in store then []
    else match store[path].content
    case Table(p) => p.columns
    case Layer(d, _, _) => d.columns
  }

  lemma ParquetCell(p: Parquet, columns: Option<seq<string>>, positions: Option<seq<int>>, i: nat, column: string)
    requires WellShaped(p) && ReadParquet(p, columns, positions).Ok?
    requires i < |ReadParquet(p, columns, positions).value.rows|
    requires column in ReadParquet(p, columns, positions).value.columns
    ensures PositionOf(positions, i) >= 0
    ensures column in ReadParquet(p, columns, positions).value.rows[i]
    ensures Some(ReadParquet(p, columns, positions).value.rows[i][column]) == CellOf(p, column, PositionOf(positions, i))
  {
    var rows := Chosen(p.Rows(), positions);
    assert rows[i] == p.Rows()[PositionOf(positions, i)];
    assert rows[i] in p.Rows();
  }

  /** Once a whole table reads, every other read of it is decided: it succeeds exactly for known columns (each
      asked once, above the first layer) at valid positions, and gives the selection. */
  lemma EveryProjection(store: Store, path: string, columns: seq<string>, positions: Option<seq<int>>)
    requires Read(store, path, None, None, {}).Ok?
    ensures var full := Read(store, path, None, None, {}).value;
            && (Read(store, path, Some(columns), positions, {}).Ok? <==>
                 && Contained(columns, full.columns) && Within(positions, |full.rows|)
                 && (store[path].content.Layer? ==> Distinct(columns)))
            && (Read(store, path, Some(columns), positions, {}).Ok? ==>
                 Read(store, path, Some(columns), positions, {}) == Selected(full, columns, positions))
  {
    hide Pick, Overlay, Project, Wanted, KeyObjection, Chosen, Selected;
    var full := Read(store, path, None, None, {}).value;
    ReadColumns(store, path, None, None, {});
    assert Read(store, path, Some(full.columns), None, {}) == Read(store, path, None, None, {});
    if Read(store, path, Some(columns), positions, {}).Ok? {
      ReadColumns(store, path, Some(columns), positions, {});
    }
    match store[path].content
    case Table(p) =>
      if Contained(columns, full.columns) { ParquetSelect(p, full.columns, columns, positions); SelectedOk(full, columns, positions); }
    case Layer(d, delta, _) =>
      if Contained(columns, full.columns) && Distinct(columns) {
        ProjectedRead(store, path, full.columns, columns, positions, {});
        SelectedOk(full, columns, positions);
      }
  }

  lemma SelectedOk(full: Frame, columns: seq<string>, positions: Option<seq<int>>)
    ensures Selected(full, columns, positions).Ok? <==> Within(positions, |full.rows|)
  {}
}
