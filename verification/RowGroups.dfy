/** Reading selected rows out of stored row groups (ima/dataset_delta.py, `_read_parquet_positions`). */
module RowGroups {
  import opened Bisection

  function Flatten<T>(groups: seq<seq<T>>): seq<T> {
    if groups == [] then [] else Flatten(groups[..|groups|-1]) + groups[|groups|-1]
  }

  /** First absolute position of group `g`. */
  function Start<T>(groups: seq<seq<T>>, g: nat): nat
    requires g <= |groups|
  {
    |Flatten(groups[..g])|
  }

  function End<T>(groups: seq<seq<T>>, g: nat): nat
    requires g < |groups|
  {
    Start(groups, g) + |groups[g]|
  }

  /** The rows of the first `n` groups that are kept. */
  function Kept<T>(groups: seq<seq<T>>, keep: set<nat>, n: nat): seq<T>
    requires n <= |groups|
  {
    if n == 0 then [] else Kept(groups, keep, n - 1) + if n - 1 in keep then groups[n - 1] else []
  }

  predicate InRange(positions: seq<int>, n: nat) {
    forall i :: 0 <= i < |positions| ==> 0 <= positions[i] < n
  }

  /** Plain indexing: the rows at the positions, in the order given and as often as given. */
  function Take<T>(rows: seq<T>, positions: seq<int>): (taken: seq<T>)
    requires InRange(positions, |rows|)
    ensures |taken| == |positions| && forall i :: 0 <= i < |positions| ==> taken[i] == rows[positions[i]]
  {
    seq(|positions|, i requires 0 <= i < |positions| => rows[positions[i]])
  }

  /** Sorted distinct positions. */
  method SortedSet(positions: seq<int>, n: nat) returns (xs: seq<int>)
    requires InRange(positions, n)
    ensures Ascending(xs) && forall p :: p in xs <==> p in positions
  {
    xs := [];
    for p := 0 to n
      invariant Ascending(xs) && (forall i :: 0 <= i < |xs| ==> xs[i] < p)
      invariant forall q :: q in xs <==> q in positions && q < p
    {
      if p in positions { xs := xs + [p]; }
    }
  }

  // ---- where a row lives ----

  lemma StartStep<T>(groups: seq<seq<T>>, g: nat)
    requires g < |groups|
    ensures Start(groups, g + 1) == End(groups, g)
  {
    assert groups[..g + 1][..g] == groups[..g];
  }

  lemma {:induction false} StartMonotone<T>(groups: seq<seq<T>>, g: nat, h: nat)
    requires g <= h <= |groups|
    ensures Start(groups, g) <= Start(groups, h)
    decreases h - g
  {
    if g < h {
      StartStep(groups, g);
      StartMonotone(groups, g + 1, h);
    }
  }

  /** Row `k` of group `g` has absolute position `Start(g) + k`. */
  lemma {:induction false} FlattenAt<T>(groups: seq<seq<T>>, g: nat, k: nat)
    requires g < |groups| && k < |groups[g]|
    ensures Start(groups, g) + k < |Flatten(groups)| && Flatten(groups)[Start(groups, g) + k] == groups[g][k]
  {
    var n := |groups| - 1;
    if g < n {
      FlattenAt(groups[..n], g, k);
      assert groups[..n][..g] == groups[..g];
    }
  }

  /** ... and sits at `|Kept(g)| + k` of the compact table when its group is kept. */
  lemma {:induction false} KeptAt<T>(groups: seq<seq<T>>, keep: set<nat>, g: nat, k: nat, n: nat)
    requires g < n <= |groups| && g in keep && k < |groups[g]|
    ensures |Kept(groups, keep, g)| + k < |Kept(groups, keep, n)|
    ensures Kept(groups, keep, n)[|Kept(groups, keep, g)| + k] == groups[g][k]
  {
    if g < n - 1 { KeptAt(groups, keep, g, k, n - 1); }
  }

  /** A group whose end is past the position, all earlier ends being at or before it, holds the position. */
  lemma Located<T>(groups: seq<seq<T>>, g: nat, pos: int)
    requires g <= |groups| && 0 <= pos < |Flatten(groups)|
    requires forall i :: 0 <= i < g ==> End(groups, i) <= pos
    requires forall i :: g <= i < |groups| ==> pos < End(groups, i)
    ensures g < |groups| && Start(groups, g) <= pos < End(groups, g)
    ensures Flatten(groups)[pos] == groups[g][pos - Start(groups, g)]
  {
    if g > 0 {
      StartStep(groups, g - 1);
      assert Start(groups, g) == End(groups, g - 1) <= pos;
    }
    WholeStart(groups);
    assert g < |groups| && pos < End(groups, g);
    FlattenAt(groups, g, pos - Start(groups, g));
  }

  lemma WholeStart<T>(groups: seq<seq<T>>)
    ensures Start(groups, |groups|) == |Flatten(groups)| && Start(groups, 0) == 0
  {
    assert groups[..|groups|] == groups;
  }

  ghost predicate Touched<T>(groups: seq<seq<T>>, positions: seq<int>, g: nat)
    requires g < |groups|
  {
    exists p :: p in positions && Start(groups, g) <= p < End(groups, g)
  }

  ghost function TouchedGroups<T>(groups: seq<seq<T>>, positions: seq<int>): set<nat> {
    set g: nat | g < |groups| && Touched(groups, positions, g)
  }

  // ---- the reader, loop by loop ----

  /** Absolute start and end of every group; empty groups start where they end. */
  method Offsets<T>(groups: seq<seq<T>>) returns (offsets: seq<(int, int)>)
    ensures |offsets| == |groups|
    ensures forall g :: 0 <= g < |groups| ==> offsets[g] == (Start(groups, g), End(groups, g))
  {
    offsets := [];
    var start := 0;
    for index := 0 to |groups|
      invariant |offsets| == index && start == Start(groups, index)
      invariant forall g :: 0 <= g < index ==> offsets[g] == (Start(groups, g), End(groups, g))
    {
      StartStep(groups, index);
      offsets := offsets + [(start, start + |groups[index]|)];
      start := start + |groups[index]|;
    }
  }

  /** The groups holding at least one requested position. */
  method SelectedGroups<T>(groups: seq<seq<T>>, offsets: seq<(int, int)>, positions: seq<int>) returns (selected: set<nat>)
    requires InRange(positions, |Flatten(groups)|) && |offsets| == |groups|
    requires forall g :: 0 <= g < |groups| ==> offsets[g] == (Start(groups, g), End(groups, g))
    ensures selected == TouchedGroups(groups, positions)
  {
    var ordered := SortedSet(positions, |Flatten(groups)|);
    selected := {};
    for index := 0 to |offsets|
      invariant forall g: nat :: g in selected <==> g < index && Touched(groups, positions, g)
    {
      var a := BisectLeft(ordered, offsets[index].1);
      var b := BisectLeft(ordered, offsets[index].0);
      if a > b {
        assert ordered[b] in positions;
        selected := selected + {index};
      }
    }
  }

  /** Concatenated kept groups, and where each kept group starts in them. */
  method Compact<T>(groups: seq<seq<T>>, offsets: seq<(int, int)>, selected: set<nat>)
    returns (table: seq<T>, compactOffsets: map<nat, nat>)
    requires |offsets| == |groups|
    requires forall g :: 0 <= g < |groups| ==> offsets[g] == (Start(groups, g), End(groups, g))
    ensures table == Kept(groups, selected, |groups|)
    ensures forall g: nat :: g < |groups| && g in selected ==>
              g in compactOffsets && compactOffsets[g] == |Kept(groups, selected, g)|
  {
    table, compactOffsets := [], map[];
    var cursor: nat := 0;
    for index := 0 to |groups|
      invariant table == Kept(groups, selected, index) && cursor == |table|
      invariant forall g: nat :: g < index && g in selected ==>
                  g in compactOffsets && compactOffsets[g] == |Kept(groups, selected, g)|
    {
      StartStep(groups, index);
      if index in selected {
        compactOffsets := compactOffsets[index := cursor];
        table := table + groups[index];
        cursor := cursor + (offsets[index].1 - offsets[index].0);
      }
    }
  }

  /** The group whose end is the first past a requested position is kept, and the row sits in the compact table at the
      group's compact offset plus its place in the group. */
  lemma Found<T>(groups: seq<seq<T>>, positions: seq<int>, selected: set<nat>, g: nat, i: nat)
    requires InRange(positions, |Flatten(groups)|) && i < |positions| && g <= |groups|
    requires selected == TouchedGroups(groups, positions)
    requires forall h :: 0 <= h < g ==> End(groups, h) <= positions[i]
    requires forall h :: g <= h < |groups| ==> positions[i] < End(groups, h)
    ensures g < |groups| && g in selected && Start(groups, g) <= positions[i]
    ensures var at := |Kept(groups, selected, g)| + positions[i] - Start(groups, g);
            at < |Kept(groups, selected, |groups|)|
            && Kept(groups, selected, |groups|)[at] == Flatten(groups)[positions[i]]
  {
    hide Flatten, Kept, Start;
    Located(groups, g, positions[i]);
    assert positions[i] in positions && Touched(groups, positions, g);
    KeptAt(groups, selected, g, positions[i] - Start(groups, g), |groups|);
  }

  /** Row-group skipping, compact offsets and bisection together are plain indexing of the whole table: for any
      positions, repeated and in any order, and with empty groups anywhere. */
  method TakeRows<T>(groups: seq<seq<T>>, positions: seq<int>) returns (rows: seq<T>)
    requires InRange(positions, |Flatten(groups)|)
    ensures rows == Take(Flatten(groups), positions)
  {
    var offsets := Offsets(groups);
    var selected := SelectedGroups(groups, offsets, positions);
    var table, compactOffsets := Compact(groups, offsets, selected);
    var ends := seq(|offsets|, g requires 0 <= g < |offsets| => offsets[g].1);
    EndsSorted(groups, ends);
    hide Flatten, Kept, Start, TouchedGroups, Ascending;
    rows := [];
    for i := 0 to |positions|
      invariant |rows| == i && forall j :: 0 <= j < i ==> rows[j] == Flatten(groups)[positions[j]]
    {
      var pos := positions[i];
      var g := BisectRight(ends, pos);
      Found(groups, positions, selected, g, i);
      rows := rows + [table[compactOffsets[g] + pos - offsets[g].0]];
    }
  }

  lemma EndsSorted<T>(groups: seq<seq<T>>, ends: seq<int>)
    requires |ends| == |groups| && forall g :: 0 <= g < |groups| ==> ends[g] == End(groups, g)
    ensures Ascending(ends)
  {
    forall i, j | 0 <= i <= j < |ends| ensures ends[i] <= ends[j] {
      StartStep(groups, i);
      StartStep(groups, j);
      StartMonotone(groups, i + 1, j + 1);
    }
  }
}
