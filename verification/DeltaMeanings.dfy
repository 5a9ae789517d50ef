/** What a delta may contain and what a read returns, cell by cell (ima/dataset_delta.py). */
module DeltaMeanings {
  import opened RowGroups
  import opened Sums
  import opened DeltaTables
  import opened DeltaWrites

  /** Two frames hold the same values of a column. */
  ghost predicate SameColumn(a: Frame, b: Frame, c: string) {
    |a.rows| == |b.rows| && forall i :: 0 <= i < |a.rows| ==> c in a.rows[i] && c in b.rows[i] && a.rows[i][c] == b.rows[i][c]
  }

  /** No two rows have the same race and runner number. */
  ghost predicate OneRowEach(f: Frame) {
    forall i, j :: 0 <= i < j < |f.rows| && "race_id" in f.rows[i] && "race_id" in f.rows[j] && "horse_no" in f.rows[i] && "horse_no" in f.rows[j] ==>
      f.rows[i]["race_id"] != f.rows[j]["race_id"] || f.rows[i]["horse_no"] != f.rows[j]["horse_no"]
  }

  lemma KeysDiffer(a: Row, b: Row)
    requires "race_id" in a && "race_id" in b && "horse_no" in a && "horse_no" in b
    ensures Pick(a, KEYS) == Pick(b, KEYS) <==> a["race_id"] == b["race_id"] && a["horse_no"] == b["horse_no"]
  {
    assert KEYS[0] == "race_id" && KEYS[1] == "horse_no";
    assert Pick(a, KEYS).Keys == {"race_id", "horse_no"} == Pick(b, KEYS).Keys;
    assert Pick(a, KEYS)["race_id"] == a["race_id"] && Pick(a, KEYS)["horse_no"] == a["horse_no"];
    assert Pick(b, KEYS)["race_id"] == b["race_id"] && Pick(b, KEYS)["horse_no"] == b["horse_no"];
  }

  lemma RowsDistinct(f: Frame)
    requires ValidFrame(f) && Contained(KEYS, f.columns)
    ensures Distinct(Project(f.rows, KEYS)) <==> OneRowEach(f)
  {
    hide Pick;
    assert KEYS[0] == "race_id" && KEYS[1] == "horse_no";
    assert KEYS[0] in f.columns && KEYS[1] in f.columns;
    forall i, j | 0 <= i < j < |f.rows|
      ensures Project(f.rows, KEYS)[i] == Project(f.rows, KEYS)[j] <==>
        f.rows[i]["race_id"] == f.rows[j]["race_id"] && f.rows[i]["horse_no"] == f.rows[j]["horse_no"]
    {
      KeysDiffer(f.rows[i], f.rows[j]);
    }
  }

  lemma SameColumns(a: Frame, b: Frame, columns: seq<string>)
    requires ValidFrame(a) && ValidFrame(b) && |a.rows| == |b.rows| && Contained(columns, a.columns) && Contained(columns, b.columns)
    ensures Project(a.rows, columns) == Project(b.rows, columns) <==> forall c :: c in columns ==> SameColumn(a, b, c)
  {
    if Project(a.rows, columns) == Project(b.rows, columns) {
      forall c | c in columns ensures SameColumn(a, b, c) {
        forall i | 0 <= i < |a.rows| ensures a.rows[i][c] == b.rows[i][c] { CellsEqual(a.rows, b.rows, columns, i, c); }
      }
    }
    if forall c :: c in columns ==> SameColumn(a, b, c) {
      forall i | 0 <= i < |a.rows| ensures Project(a.rows, columns)[i] == Project(b.rows, columns)[i] {
        forall c | c in columns ensures c in a.rows[i] && c in b.rows[i] && a.rows[i][c] == b.rows[i][c] { assert SameColumn(a, b, c); }
        assert Pick(a.rows[i], columns) == Pick(b.rows[i], columns);
      }
    }
  }

  /** What may be written: some distinct, unprotected, vetted columns, the parent's own among them declared as
      replacements that keep their contract; the same runners, each once; and every other column of the parent with its
      values, row by row. */
  lemma DeclaredExactly(original: Frame, frame: Frame, columns: seq<string>, replacements: seq<string>, catalogue: Catalogue)
    requires ValidFrame(original) && ValidFrame(frame)
    ensures Declared(original, frame, columns, replacements, catalogue) <==>
      && |columns| >= 1 && (forall i, j :: 0 <= i < j < |columns| ==> columns[i] != columns[j])
      && (forall c :: c in columns ==> c !in PROTECTED && catalogue.vetted(c) && c in frame.columns)
      && (forall c :: c in replacements ==> c in columns && catalogue.contractKept(c))
      && (forall c :: c in original.columns && c !in replacements ==> c !in columns && c in frame.columns && SameColumn(original, frame, c))
      && "race_id" in frame.columns && "horse_no" in frame.columns && "race_id" in original.columns && "horse_no" in original.columns
      && |frame.rows| == |original.rows| && OneRowEach(frame)
  {
    hide Pick, Project, SameColumn, OneRowEach, ValidFrame, PROTECTED;
    assert KEYS[0] == "race_id" && KEYS[1] == "horse_no";
    var untouched := Minus(original.columns, replacements);
    if Contained(KEYS, frame.columns) { RowsDistinct(frame); }
    if |frame.rows| == |original.rows| && Contained(untouched, frame.columns) { SameColumns(original, frame, untouched); }
  }

  /** Any read of a readable table: exactly known columns at positions from zero up to the number of rows, and then each
      cell is that of the whole table at the position asked for. */
  lemma ReadExactly(store: Store, path: string, columns: seq<string>, positions: seq<int>)
    requires Read(store, path, None, None, {}).Ok? && Distinct(columns)
    ensures var full, part := Read(store, path, None, None, {}).value, Read(store, path, Some(columns), Some(positions), {});
            && (part.Ok? <==> (forall c :: c in columns ==> c in full.columns) && (forall i :: 0 <= i < |positions| ==> -1 < positions[i] < |full.rows|))
            && (part.Ok? ==>
                  && part.value.columns == columns && |part.value.rows| == |positions|
                  && forall i, c :: 0 <= i < |positions| && c in columns ==>
                       && (c in part.value.rows[i] <==> c in full.rows[positions[i]])
                       && (c in part.value.rows[i] ==> part.value.rows[i][c] == full.rows[positions[i]][c]))
  {
    hide Read;
    EveryProjection(store, path, columns, Some(positions));
  }
}
