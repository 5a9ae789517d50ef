/** Publishing a feature delta: what may be written, and that it reads back (ima/dataset_delta.py). */
module DeltaWrites {
  import opened RowGroups
  import opened Sums
  import opened DeltaTables

  const PROTECTED: set<string> := {
    "date", "race_id", "horse_id", "horse_no", "result", "finish_seconds", "finish_time",
    "target_win", "target_probability", "target_rank_score", "target_speed",
    "target_future_market_probability", "target_log_final_win_odds",
    "market_probability", "future_market_probability", "market_raw",
    "odds_snapshot_at", "forecast_at", "final_win_odds", "win_odds", "market_odds",
    "place_odds", "final_place_odds", "current_decimal_odds"}

  /** Decisions of the catalogue: a predictor's metadata is acceptable; a replacement keeps unit and scope. */
  datatype Catalogue = Catalogue(vetted: string -> bool, contractKept: string -> bool)

  function Minus(xs: seq<string>, drop: seq<string>): (kept: seq<string>)
    ensures forall c :: c in kept <==> c in xs && c !in drop
  {
    if xs == [] then []
    else
      var rest := Minus(xs[..|xs|-1], drop);
      assert xs == xs[..|xs|-1] + [xs[|xs|-1]];
      if xs[|xs|-1] in drop then rest else rest + [xs[|xs|-1]]
  }

  ghost predicate ValidFrame(f: Frame) {
    Distinct(f.columns) && forall i, c :: 0 <= i < |f.rows| ==> (c in f.rows[i] <==> c in f.columns)
  }

  /** The checks made before anything is written. */
  predicate Declared(original: Frame, frame: Frame, columns: seq<string>, replacements: seq<string>, catalogue: Catalogue) {
    && columns != [] && Distinct(columns) && Contained(replacements, columns)
    && (forall c | c in columns :: c !in PROTECTED && catalogue.vetted(c))
    && (forall c | c in columns :: c in original.columns ==> c in replacements)
    && Contained(KEYS + columns, frame.columns) && Contained(KEYS, original.columns)
    && |frame.rows| == |original.rows| && Distinct(Project(frame.rows, KEYS))
    && Contained(Minus(original.columns, replacements), frame.columns)
    && Project(original.rows, Minus(original.columns, replacements)) == Project(frame.rows, Minus(original.columns, replacements))
    && (forall c | c in replacements :: catalogue.contractKept(c))
  }

  function Published(store: Store, parent: string, original: Frame, frame: Frame, columns: seq<string>,
      groups: seq<seq<Row>>, checksum: int, deltaChecksum: int): Entry
    requires parent in store
  {
    Entry(checksum, None, Layer(
      Descriptor(parent, store[parent].checksum, deltaChecksum, frame.columns, columns, |frame.rows|, Project(original.rows, KEYS)),
      Parquet(KEYS + columns, groups), deltaChecksum))
  }

  /** The parent manifest's own declaration of its runners, where it makes one. */
  predicate RowKeysAgree(rowKeys: Option<seq<Row>>, original: Frame) {
    rowKeys.Some? ==> "horse_id" in original.columns && rowKeys.value == Project(original.rows, IDENTITY)
  }

  // ---- stored tables are not disturbed ----

  lemma {:induction false} ReadUndisturbed(store: Store, target: string, e: Entry, path: string, columns: Option<seq<string>>,
      positions: Option<seq<int>>, seen: set<string>, seen': set<string>)
    requires target !in store && (forall p :: p in store ==> (p in seen <==> p in seen'))
    requires Read(store, path, columns, positions, seen).Ok?
    ensures Read(store[target := e], path, columns, positions, seen') == Read(store, path, columns, positions, seen)
    decreases store.Keys - seen
  {
    hide Pick, Overlay, Project, Wanted, KeyObjection, Chosen, ReadParquet, Merged, Contained;
    match store[path].content
    case Table(_) =>
    case Layer(d, _, _) =>
      var requested := if columns.None? then d.columns else columns.value;
      var below, below' := seen + {path}, seen' + {path};
      ReadUndisturbed(store, target, e, d.parent, Some(KeyColumns(store[d.parent].rowKeys)), None, below, below');
      ReadUndisturbed(store, target, e, d.parent, Some(Wanted(requested, false, d.deltaColumns)), positions, below, below');
  }

  // ---- reading the written delta back ----

  /** The parent, as the new layer sees it: all of its columns, and no others. */
  lemma ParentBelow(store: Store, parent: string, target: string, e: Entry, columns: seq<string>)
    requires target !in store && Read(store, parent, None, None, {}).Ok? && Distinct(columns)
    ensures var original := Read(store, parent, None, None, {}).value;
            var below := Read(store[target := e], parent, Some(columns), None, {target});
            && (below.Ok? <==> Contained(columns, original.columns))
            && (below.Ok? ==> below.value == Frame(columns, Project(original.rows, columns)))
  {
    hide Pick, Overlay, Project, Wanted, KeyObjection, Merged, Contained;
    var original := Read(store, parent, None, None, {}).value;
    ReadColumns(store, parent, None, None, {});
    EveryProjection(store, parent, columns, None);
    if Contained(columns, original.columns) {
      ReadUndisturbed(store, target, e, parent, Some(columns), None, {}, {target});
    }
    if Read(store[target := e], parent, Some(columns), None, {target}).Ok? {
      ReadColumns(store[target := e], parent, Some(columns), None, {target});
    }
  }

  lemma CellsEqual(a: seq<Row>, b: seq<Row>, columns: seq<string>, i: nat, c: string)
    requires Project(a, columns) == Project(b, columns) && i < |a| && i < |b| && c in columns
    ensures c in a[i] <==> c in b[i]
    ensures c in a[i] ==> a[i][c] == b[i][c]
  {
    assert Pick(a[i], columns) == Project(a, columns)[i] == Pick(b[i], columns);
    assert c in Pick(a[i], columns) <==> c in a[i];
    assert c in Pick(b[i], columns) <==> c in b[i];
  }

  lemma RowRestored(original: Row, frame: Row, all: seq<string>, columns: seq<string>)
    requires forall c :: c in frame <==> c in all
    requires Contained(columns, all)
    requires forall c :: c in all && c !in columns ==> c in original && original[c] == frame[c]
    ensures Overlay(Pick(original, Wanted(all, false, columns)), Pick(Pick(frame, KEYS + columns), Wanted(all, true, columns)), all, columns)
         == frame
  {
    hide Wanted;
    WantedMembers(all, false, columns);
    WantedMembers(all, true, columns);
  }

  lemma SameOutsideDelta(original: Frame, frame: Frame, columns: seq<string>, replacements: seq<string>, catalogue: Catalogue)
    requires ValidFrame(frame) && Declared(original, frame, columns, replacements, catalogue)
    ensures forall i, c :: 0 <= i < |frame.rows| && c in original.columns && c in frame.columns && c !in columns ==>
              c in original.rows[i] && original.rows[i][c] == frame.rows[i][c]
    ensures Project(original.rows, KEYS) == Project(frame.rows, KEYS)
  {
    hide Pick;
    var untouched := Minus(original.columns, replacements);
    assert KEYS[0] in PROTECTED && KEYS[1] in PROTECTED;
    forall i, c | 0 <= i < |frame.rows| && c in original.columns && c in frame.columns && c !in columns
      ensures c in original.rows[i] && original.rows[i][c] == frame.rows[i][c]
    {
      CellsEqual(original.rows, frame.rows, untouched, i, c);
    }
    ProjectProject(original.rows, untouched, KEYS);
    ProjectProject(frame.rows, untouched, KEYS);
  }

  lemma KeysReadable(rowKeys: Option<seq<Row>>, original: Frame)
    requires Contained(KEYS, original.columns)
    ensures Contained(KeyColumns(rowKeys), original.columns) <==> (rowKeys.Some? ==> "horse_id" in original.columns)
    ensures Contained(KEYS, KeyColumns(rowKeys))
  {
    if rowKeys.Some? { assert KeyColumns(rowKeys)[2] == "horse_id"; }
  }

  lemma DeltaReads(frame: Frame, columns: seq<string>, groups: seq<seq<Row>>)
    requires Flatten(groups) == Project(frame.rows, KEYS + columns)
    ensures var delta := Parquet(KEYS + columns, groups);
            && ReadParquet(delta, Some(KEYS), None) == Ok(Frame(KEYS, Project(frame.rows, KEYS)))
            && ReadParquet(delta, Some(Wanted(frame.columns, true, columns)), None)
               == Ok(Frame(Wanted(frame.columns, true, columns),
                    Project(Project(frame.rows, KEYS + columns), Wanted(frame.columns, true, columns))))
  {
    hide Pick, Wanted;
    WantedMembers(frame.columns, true, columns);
    ProjectProject(frame.rows, KEYS + columns, KEYS);
  }

  lemma KeysAccepted(d: Descriptor, rowKeys: Option<seq<Row>>, original: seq<Row>, frame: seq<Row>, keyColumns: seq<string>)
    requires keyColumns == KeyColumns(rowKeys) && Project(original, KEYS) == Project(frame, KEYS) && Distinct(Project(frame, KEYS))
    requires d.rows == |frame| && d.keys == Project(original, KEYS)
    ensures KeyObjection(d, rowKeys, Project(original, keyColumns), Project(frame, KEYS)).None?
       <==> (rowKeys.Some? ==> rowKeys.value == Project(original, IDENTITY))
  {
    hide Pick;
    assert |original| == |Project(original, KEYS)|;
    ProjectProject(original, keyColumns, KEYS);
    ProjectProject(frame, KEYS, KEYS);
    if rowKeys.Some? {
      assert "race_id" == keyColumns[0] && "horse_id" == keyColumns[2];
      ProjectProject(original, keyColumns, IDENTITY);
    }
  }

  lemma ExtraColumns(original: Frame, frame: Frame, columns: seq<string>)
    requires Contained(KEYS, original.columns)
    ensures Contained(Wanted(frame.columns, false, columns), original.columns) <==> Contained(frame.columns, original.columns + columns)
  {
    hide Wanted;
    WantedMembers(frame.columns, false, columns);
  }

  lemma MergedBack(original: Frame, frame: Frame, columns: seq<string>)
    requires ValidFrame(frame) && Contained(columns, frame.columns)
    requires Contained(frame.columns, original.columns + columns)
    requires Project(original.rows, KEYS) == Project(frame.rows, KEYS)
    requires forall i, c :: 0 <= i < |frame.rows| && i < |original.rows| && c in original.columns && c in frame.columns && c !in columns ==>
               c in original.rows[i] && original.rows[i][c] == frame.rows[i][c]
    ensures Merged(frame.columns, columns, Project(original.rows, KEYS), Project(original.rows, Wanted(frame.columns, false, columns)),
              Project(Project(frame.rows, KEYS + columns), Wanted(frame.columns, true, columns))) == Ok(frame)
  {
    hide Pick, Wanted, Overlay;
    var baseWanted, addedWanted := Wanted(frame.columns, false, columns), Wanted(frame.columns, true, columns);
    var base := Project(original.rows, baseWanted);
    var added := Project(Project(frame.rows, KEYS + columns), addedWanted);
    WantedMembers(frame.columns, false, columns);
    WantedMembers(frame.columns, true, columns);
    ProjectProject(original.rows, baseWanted, KEYS);
    ProjectProject(Project(frame.rows, KEYS + columns), addedWanted, KEYS);
    ProjectProject(frame.rows, KEYS + columns, KEYS);
    assert |original.rows| == |Project(original.rows, KEYS)| == |frame.rows|;
    forall i | 0 <= i < |frame.rows| ensures Overlay(base[i], added[i], frame.columns, columns) == frame.rows[i] {
      RowRestored(original.rows[i], frame.rows[i], frame.columns, columns);
    }
    assert Combine(base, added, frame.columns, columns) == frame.rows;
  }

  /** The staged layer reads back as the written frame exactly when the frame has no column that is neither the
      parent's nor declared, and the parent's own identity declaration holds. */
  lemma WrittenReadsBack(store: Store, parent: string, target: string, frame: Frame, columns: seq<string>,
      replacements: seq<string>, catalogue: Catalogue, groups: seq<seq<Row>>, checksum: int, deltaChecksum: int)
    requires Read(store, parent, None, None, {}).Ok? && target !in store && ValidFrame(frame)
    requires Declared(Read(store, parent, None, None, {}).value, frame, columns, replacements, catalogue)
    requires Flatten(groups) == Project(frame.rows, KEYS + columns)
    ensures var original := Read(store, parent, None, None, {}).value;
            var store' := store[target := Published(store, parent, original, frame, columns, groups, checksum, deltaChecksum)];
            Read(store', target, None, None, {}) == Ok(frame) <==>
              Contained(frame.columns, original.columns + columns) && RowKeysAgree(store[parent].rowKeys, original)
  {
    hide Pick, Overlay, Wanted, Contained, Read, KeyObjection, Merged, ReadParquet, Declared, Project, Distinct;
    var original := Read(store, parent, None, None, {}).value;
    PathExists(store, parent);
    var e := Published(store, parent, original, frame, columns, groups, checksum, deltaChecksum);
    var store' := store[target := e];
    var keyColumns := KeyColumns(store[parent].rowKeys);
    var baseWanted := Wanted(frame.columns, false, columns);
    DeclaredFacts(original, frame, columns, replacements, catalogue);
    WantedMembers(frame.columns, false, columns);
    KeyColumnsDistinct(store[parent].rowKeys);
    ParentBelow(store, parent, target, e, keyColumns);
    ParentBelow(store, parent, target, e, baseWanted);
    SameOutsideDelta(original, frame, columns, replacements, catalogue);
    DeltaReads(frame, columns, groups);
    LayerRead(store', target, Read(store', parent, Some(keyColumns), None, {target}), Read(store', parent, Some(baseWanted), None, {target}));
    KeysReadable(store[parent].rowKeys, original);
    ExtraColumns(original, frame, columns);
    if Contained(keyColumns, original.columns) {
      KeysAccepted(e.content.descriptor, store[parent].rowKeys, original.rows, frame.rows, keyColumns);
      if Contained(baseWanted, original.columns) {
        ProjectProject(original.rows, keyColumns, KEYS);
        MergedBack(original, frame, columns);
      }
    }
  }

  lemma DeclaredFacts(original: Frame, frame: Frame, columns: seq<string>, replacements: seq<string>, catalogue: Catalogue)
    requires Declared(original, frame, columns, replacements, catalogue)
    ensures Contained(columns, frame.columns) && Contained(KEYS + columns, frame.columns)
    ensures Contained(KEYS, original.columns) && Distinct(Project(frame.rows, KEYS))
  {
    hide Pick, Distinct;
  }

  /** The first layer's read, stage by stage. */
  lemma LayerRead(store: Store, path: string, baseKeys: Result<Frame>, base: Result<Frame>)
    requires path in store && store[path].content.Layer?
    requires var d := store[path].content.descriptor;
      && d.parent in store && store[d.parent].checksum == d.parentChecksum && Distinct(d.columns)
      && store[path].content.observedChecksum == d.deltaChecksum
      && baseKeys == Read(store, d.parent, Some(KeyColumns(store[d.parent].rowKeys)), None, {path})
      && base == Read(store, d.parent, Some(Wanted(d.columns, false, d.deltaColumns)), None, {path})
    ensures var d := store[path].content.descriptor;
      var delta := store[path].content.delta;
      var deltaKeys := ReadParquet(delta, Some(KEYS), None);
      var added := ReadParquet(delta, Some(Wanted(d.columns, true, d.deltaColumns)), None);
      Read(store, path, None, None, {}) ==
        if baseKeys.Err? then baseKeys
        else if deltaKeys.Err? then deltaKeys
        else
          var objection := KeyObjection(d, store[d.parent].rowKeys, baseKeys.value.rows, deltaKeys.value.rows);
          if objection.Some? then Err(objection.value)
          else if base.Err? then base
          else if added.Err? then added
          else Merged(d.columns, d.deltaColumns, Project(baseKeys.value.rows, KEYS), base.value.rows, added.value.rows)
  {
    hide Pick, Overlay, Wanted, KeyObjection, Merged, ReadParquet, Project, Distinct, KeyColumns;
    assert {} + {path} == {path};
  }

  lemma KeyColumnsDistinct(rowKeys: Option<seq<Row>>)
    ensures Distinct(KeyColumns(rowKeys))
  {
    var k := KeyColumns(rowKeys);
    assert k[0] == "race_id" && k[1] == "horse_no" && (rowKeys.Some? ==> k[2] == "horse_id");
    assert k[0][0] != k[1][0];
    assert "horse_no"[6] != "horse_id"[6];
  }

  /** `write_feature_delta`, as far as tables go: check, stage, read back and compare, and only then publish. */
  method WriteFeatureDelta(store: Store, parent: string, target: string, frame: Frame, columns: seq<string>,
      replacements: seq<string>, catalogue: Catalogue, groups: seq<seq<Row>>, checksum: int, deltaChecksum: int)
    returns (r: Result<Store>)
    requires WellFormed(store) && ValidFrame(frame) && Flatten(groups) == Project(frame.rows, KEYS + columns)
    ensures r.Ok? <==>
      && Read(store, parent, None, None, {}).Ok? && target !in store
      && var original := Read(store, parent, None, None, {}).value;
         && Declared(original, frame, columns, replacements, catalogue)
         && Contained(frame.columns, original.columns + columns) && RowKeysAgree(store[parent].rowKeys, original)
    ensures r.Ok? ==> Read(r.value, target, None, None, {}) == Ok(frame)
    ensures r.Ok? ==> target in r.value && store == r.value - {target}
  {
    hide WellShaped, Pick, Overlay, Wanted, Contained, Project, Read, Merged, Declared;
    var read := ReadFeatureTable(store, parent, None, None, {});
    if read.Err? { return Err(read.error); }
    var original := read.value;
    if !Declared(original, frame, columns, replacements, catalogue) { return Err(Declaration); }
    if target in store { return Err(Existing); }
    PathExists(store, parent);
    var staged := store[target := Published(store, parent, original, frame, columns, groups, checksum, deltaChecksum)];
    DeclaredFacts(original, frame, columns, replacements, catalogue);
    StagedWellFormed(store, parent, target, original, frame, columns, groups, checksum, deltaChecksum);
    var back := ReadFeatureTable(staged, target, None, None, {});
    WrittenReadsBack(store, parent, target, frame, columns, replacements, catalogue, groups, checksum, deltaChecksum);
    if back != Ok(frame) { return Err(ReadBack); }
    return Ok(staged);
  }

  lemma PathExists(store: Store, path: string)
    requires Read(store, path, None, None, {}).Ok?
    ensures path in store
  {}

  lemma StagedWellFormed(store: Store, parent: string, target: string, original: Frame, frame: Frame, columns: seq<string>,
      groups: seq<seq<Row>>, checksum: int, deltaChecksum: int)
    requires WellFormed(store) && parent in store && ValidFrame(frame) && Contained(KEYS + columns, frame.columns)
    requires Flatten(groups) == Project(frame.rows, KEYS + columns)
    ensures WellFormed(store[target := Published(store, parent, original, frame, columns, groups, checksum, deltaChecksum)])
  {}
}
