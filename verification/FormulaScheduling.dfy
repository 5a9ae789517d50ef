/** Ordering formula definitions so that each follows its inputs and parents
    (ima/feature_definitions.py, ima/feature_lifecycle.py). */
module FormulaScheduling {
  import opened UnitSignatures
  import opened FeatureExpressions

  /** `content` is the content identity; a definition is also known by "dfs_" followed by it. */
  datatype Definition = Definition(name: string, content: string, inputs: set<string>, parents: set<string>,
                                   expression: Expression, unit: UnitTree)
  {
    function FeatureId(): string { "dfs_" + content }

    function Produces(): set<string> { {name, FeatureId()} }
  }

  // ---- alphabetical order ----

  predicate Alphabetical(a: string, b: string) {
    a == [] || (b != [] && (a[0] < b[0] || (a[0] == b[0] && Alphabetical(a[1..], b[1..]))))
  }

  lemma {:induction false} AlphabeticalTotal(a: string, b: string)
    ensures Alphabetical(a, b) || Alphabetical(b, a)
    ensures Alphabetical(a, b) && Alphabetical(b, a) ==> a == b
  {
    if a != [] && b != [] && a[0] == b[0] {
      AlphabeticalTotal(a[1..], b[1..]);
      assert a == [a[0]] + a[1..] && b == [b[0]] + b[1..];
    }
  }

  lemma {:induction false} AlphabeticalTransitive(a: string, b: string, c: string)
    requires Alphabetical(a, b) && Alphabetical(b, c)
    ensures Alphabetical(a, c)
  {
    if a != [] && a[0] == b[0] == c[0] { AlphabeticalTransitive(a[1..], b[1..], c[1..]); }
  }

  function InsertByName(d: Definition, ds: seq<Definition>): seq<Definition> {
    if ds == [] || Alphabetical(d.name, ds[0].name) then [d] + ds else [ds[0]] + InsertByName(d, ds[1..])
  }

  function SortByName(ds: seq<Definition>): seq<Definition> {
    if ds == [] then [] else InsertByName(ds[0], SortByName(ds[1..]))
  }

  /** In alphabetical order, each name once. */
  ghost predicate Listed(ds: seq<Definition>) {
    forall i, j :: 0 <= i < j < |ds| ==> ds[i].name != ds[j].name && Alphabetical(ds[i].name, ds[j].name)
  }

  ghost predicate DistinctNames(ds: seq<Definition>) {
    forall i, j :: 0 <= i < j < |ds| ==> ds[i].name != ds[j].name
  }

  ghost predicate SameMembers(xs: seq<Definition>, ys: seq<Definition>) {
    forall d :: d in xs <==> d in ys
  }

  lemma {:induction false} InsertListed(d: Definition, ds: seq<Definition>)
    requires Listed(ds) && forall e :: e in ds ==> e.name != d.name
    ensures Listed(InsertByName(d, ds)) && forall e :: e in InsertByName(d, ds) <==> e == d || e in ds
    ensures |InsertByName(d, ds)| == |ds| + 1
  {
    hide Alphabetical;
    if ds != [] {
      AlphabeticalTotal(d.name, ds[0].name);
      if Alphabetical(d.name, ds[0].name) {
        forall j | 0 <= j < |ds| ensures Alphabetical(d.name, ds[j].name) {
          if j > 0 { AlphabeticalTransitive(d.name, ds[0].name, ds[j].name); }
        }
      } else {
        assert ds == [ds[0]] + ds[1..];
        InsertListed(d, ds[1..]);
        var rest := InsertByName(d, ds[1..]);
        forall j | 0 <= j < |rest| ensures rest[j].name != ds[0].name && Alphabetical(ds[0].name, rest[j].name) {
          assert rest[j] in rest;
        }
      }
    }
  }

  lemma {:induction false} SortLists(ds: seq<Definition>)
    requires DistinctNames(ds)
    ensures Listed(SortByName(ds)) && SameMembers(SortByName(ds), ds) && |SortByName(ds)| == |ds|
  {
    hide Alphabetical, InsertByName;
    if ds != [] {
      assert ds == [ds[0]] + ds[1..];
      SortLists(ds[1..]);
      InsertListed(ds[0], SortByName(ds[1..]));
    }
  }

  /** An alphabetical listing is determined by what it lists. */
  lemma {:induction false} ListingUnique(xs: seq<Definition>, ys: seq<Definition>)
    requires Listed(xs) && Listed(ys) && SameMembers(xs, ys)
    ensures xs == ys
  {
    hide Alphabetical;
    if xs == [] {
      if ys != [] { HasMember(ys); assert false; }
    } else {
      assert xs[0] in xs;
      assert ys != [];
      assert ys[0] in ys;
      SameHead(xs, ys);
      forall d ensures d in xs[1..] <==> d in ys[1..] {
        assert d in xs <==> d == xs[0] || d in xs[1..];
        assert d in ys <==> d == ys[0] || d in ys[1..];
      }
      ListingUnique(xs[1..], ys[1..]);
      assert xs == [xs[0]] + xs[1..] && ys == [ys[0]] + ys[1..];
    }
  }

  lemma HasMember(ds: seq<Definition>)
    requires ds != []
    ensures exists d :: d in ds
  {
    assert ds[0] in ds;
  }

  lemma SameHead(xs: seq<Definition>, ys: seq<Definition>)
    requires Listed(xs) && Listed(ys) && SameMembers(xs, ys) && xs != [] && ys != []
    ensures xs[0] == ys[0]
  {
    hide Alphabetical;
    assert xs[0] in ys && ys[0] in xs;
    var i :| 0 <= i < |ys| && ys[i] == xs[0];
    var j :| 0 <= j < |xs| && xs[j] == ys[0];
    if i > 0 && j > 0 { AlphabeticalTotal(xs[0].name, ys[0].name); }
  }

  // ---- rounds ----

  predicate Ready(d: Definition, known: set<string>, completed: set<string>) {
    d.inputs <= known && d.parents <= completed
  }

  /** The pending definitions that are ready, or those that are not. */
  function Sift(pending: seq<Definition>, known: set<string>, completed: set<string>, ready: bool): (sifted: seq<Definition>)
    ensures forall d :: d in sifted <==> d in pending && Ready(d, known, completed) == ready
    ensures |sifted| <= |pending|
  {
    if pending == [] then []
    else
      var rest := Sift(pending[1..], known, completed, ready);
      assert pending == [pending[0]] + pending[1..];
      if Ready(pending[0], known, completed) == ready then [pending[0]] + rest else rest
  }

  function ProducedBy(ds: seq<Definition>): (s: set<string>)
    ensures forall d :: d in ds ==> d.Produces() <= s
  {
    if ds == [] then {}
    else
      assert ds == ds[..|ds|-1] + [ds[|ds|-1]];
      ProducedBy(ds[..|ds|-1]) + ds[|ds|-1].Produces()
  }

  function ContentsOf(ds: seq<Definition>): (s: set<string>)
    ensures forall d :: d in ds ==> d.content in s
  {
    if ds == [] then {}
    else
      assert ds == ds[..|ds|-1] + [ds[|ds|-1]];
      ContentsOf(ds[..|ds|-1]) + {ds[|ds|-1].content}
  }

  lemma {:induction false} SiftSplits(pending: seq<Definition>, known: set<string>, completed: set<string>)
    ensures |Sift(pending, known, completed, true)| + |Sift(pending, known, completed, false)| == |pending|
  {
    if pending != [] { SiftSplits(pending[1..], known, completed); }
  }

  lemma {:induction false} SiftDistinct(pending: seq<Definition>, known: set<string>, completed: set<string>, ready: bool)
    requires DistinctNames(pending)
    ensures DistinctNames(Sift(pending, known, completed, ready))
  {
    if pending != [] {
      SiftDistinct(pending[1..], known, completed, ready);
      var rest := Sift(pending[1..], known, completed, ready);
      forall j | 0 <= j < |rest| ensures rest[j].name != pending[0].name {
        assert rest[j] in pending[1..];
      }
    }
  }

  /** Round after round: all that is ready, in alphabetical order, then the rest with what that produced. */
  function Rounds(pending: seq<Definition>, known: set<string>, completed: set<string>): Option<seq<Definition>>
    decreases |pending|
  {
    if pending == [] then Some([])
    else
      var ready := Sift(pending, known, completed, true);
      if ready == [] then None
      else
        SiftSplits(pending, known, completed);
        var order := SortByName(ready);
        var later := Rounds(Sift(pending, known, completed, false), known + ProducedBy(order), completed + ContentsOf(order));
        if later.None? then None else Some(order + later.value)
  }

  // ---- what an order must satisfy ----

  /** Each definition comes after its inputs and parents. */
  predicate Follows(order: seq<Definition>, known: set<string>, completed: set<string>) {
    order == [] ||
    (Ready(order[0], known, completed) && Follows(order[1..], known + order[0].Produces(), completed + {order[0].content}))
  }

  lemma LastProduced(first: seq<Definition>, known: set<string>, completed: set<string>)
    requires first != [] && Ready(first[|first|-1], known, completed)
    ensures var n := |first| - 1;
            && known + ProducedBy(first) == (known + ProducedBy(first[..n])) + first[n].Produces()
            && completed + ContentsOf(first) == (completed + ContentsOf(first[..n])) + {first[n].content}
            && Ready(first[n], known + ProducedBy(first[..n]), completed + ContentsOf(first[..n]))
  {}

  lemma FollowsOne(d: Definition, later: seq<Definition>, known: set<string>, completed: set<string>)
    requires Ready(d, known, completed) && Follows(later, known + d.Produces(), completed + {d.content})
    ensures Follows([d] + later, known, completed)
  {
    hide Ready;
    assert ([d] + later)[1..] == later;
  }

  lemma {:induction false} FollowsAppend(first: seq<Definition>, later: seq<Definition>, known: set<string>, completed: set<string>)
    requires forall d :: d in first ==> Ready(d, known, completed)
    requires Follows(later, known + ProducedBy(first), completed + ContentsOf(first))
    ensures Follows(first + later, known, completed)
    decreases |first|
  {
    hide ProducedBy, ContentsOf, Ready, Follows;
    if first == [] {
      NothingProduced(first, known, completed);
      assert first + later == later;
    } else {
      var n := |first| - 1;
      assert first[n] in first && forall d :: d in first[..n] ==> d in first;
      LastProduced(first, known, completed);
      FollowsOne(first[n], later, known + ProducedBy(first[..n]), completed + ContentsOf(first[..n]));
      FollowsAppend(first[..n], [first[n]] + later, known, completed);
      assert first[..n] + ([first[n]] + later) == first + later;
    }
  }

  lemma NothingProduced(ds: seq<Definition>, known: set<string>, completed: set<string>)
    requires ds == []
    ensures known + ProducedBy(ds) == known && completed + ContentsOf(ds) == completed
  {}

  /** Without the definitions already run, an order still works. */
  function Without(order: seq<Definition>, gone: seq<Definition>): (rest: seq<Definition>)
    ensures forall d :: d in rest <==> d in order && d !in gone
  {
    if order == [] then []
    else
      var rest := Without(order[1..], gone);
      assert order == [order[0]] + order[1..];
      if order[0] in gone then rest else [order[0]] + rest
  }

  lemma {:induction false} FollowsWithout(order: seq<Definition>, gone: seq<Definition>, known: set<string>, completed: set<string>,
      known': set<string>, completed': set<string>)
    requires Follows(order, known, completed) && known <= known' && completed <= completed'
    requires forall d :: d in gone ==> d.Produces() <= known' && d.content in completed'
    ensures Follows(Without(order, gone), known', completed')
  {
    if order != [] {
      var d := order[0];
      if d in gone {
        FollowsWithout(order[1..], gone, known + d.Produces(), completed + {d.content}, known', completed');
      } else {
        FollowsWithout(order[1..], gone, known + d.Produces(), completed + {d.content},
          known' + d.Produces(), completed' + {d.content});
        assert ([d] + Without(order[1..], gone))[1..] == Without(order[1..], gone);
      }
    }
  }

  // ---- the schedule ----

  /** A found schedule lists exactly the pending definitions, each after its inputs and parents. */
  lemma {:induction false} RoundsFollow(pending: seq<Definition>, known: set<string>, completed: set<string>)
    requires DistinctNames(pending) && Rounds(pending, known, completed).Some?
    ensures var order := Rounds(pending, known, completed).value;
            Follows(order, known, completed) && SameMembers(order, pending) && |order| == |pending|
    decreases |pending|
  {
    hide DistinctNames, Listed, SortByName, Ready;
    if pending != [] {
      var ready, rest := Sift(pending, known, completed, true), Sift(pending, known, completed, false);
      SiftSplits(pending, known, completed);
      SiftDistinct(pending, known, completed, true);
      SiftDistinct(pending, known, completed, false);
      SortLists(ready);
      var order := SortByName(ready);
      RoundsFollow(rest, known + ProducedBy(order), completed + ContentsOf(order));
      FollowsAppend(order, Rounds(rest, known + ProducedBy(order), completed + ContentsOf(order)).value, known, completed);
    }
  }

  lemma SomethingReady(pending: seq<Definition>, known: set<string>, completed: set<string>, order: seq<Definition>)
    requires Follows(order, known, completed) && pending != [] && SameMembers(order, pending)
    ensures Sift(pending, known, completed, true) != []
  {
    hide Ready;
    assert pending[0] in pending;
    assert order != [];
    assert order[0] in order;
    assert order[0] in Sift(pending, known, completed, true);
  }

  /** If any order at all works, the rounds find one. */
  lemma {:induction false} RoundsComplete(pending: seq<Definition>, known: set<string>, completed: set<string>, order: seq<Definition>)
    requires DistinctNames(pending) && Follows(order, known, completed) && SameMembers(order, pending)
    ensures Rounds(pending, known, completed).Some?
    decreases |pending|
  {
    hide DistinctNames, Listed, SortByName, Ready, Follows;
    if pending != [] {
      var ready, rest := Sift(pending, known, completed, true), Sift(pending, known, completed, false);
      SiftSplits(pending, known, completed);
      SiftDistinct(pending, known, completed, true);
      SiftDistinct(pending, known, completed, false);
      SomethingReady(pending, known, completed, order);
      SortLists(ready);
      var first := SortByName(ready);
      FollowsWithout(order, first, known, completed, known + ProducedBy(first), completed + ContentsOf(first));
      RoundsComplete(rest, known + ProducedBy(first), completed + ContentsOf(first), Without(order, first));
    }
  }

  /** The schedulers succeed exactly when the definitions can be ordered at all. */
  lemma SchedulableExactly(pending: seq<Definition>, known: set<string>, completed: set<string>)
    requires DistinctNames(pending)
    ensures Rounds(pending, known, completed).Some? <==> exists order :: Follows(order, known, completed) && SameMembers(order, pending)
  {
    hide DistinctNames, Follows, Rounds, SameMembers;
    if Rounds(pending, known, completed).Some? {
      RoundsFollow(pending, known, completed);
    }
    if order :| Follows(order, known, completed) && SameMembers(order, pending) {
      RoundsComplete(pending, known, completed, order);
    }
  }

  /** The schedule does not depend on the order in which definitions are listed. */
  lemma {:induction false} ListOrderIrrelevant(xs: seq<Definition>, ys: seq<Definition>, known: set<string>, completed: set<string>)
    requires DistinctNames(xs) && DistinctNames(ys) && SameMembers(xs, ys)
    ensures Rounds(xs, known, completed) == Rounds(ys, known, completed)
    decreases |xs|
  {
    hide DistinctNames, Listed, SortByName, Ready;
    if xs == [] {
      if ys != [] { HasMember(ys); assert false; }
    } else {
      assert xs[0] in ys;
      var ready, ready' := Sift(xs, known, completed, true), Sift(ys, known, completed, true);
      SiftSplits(xs, known, completed);
      SiftDistinct(xs, known, completed, true);
      SiftDistinct(xs, known, completed, false);
      SiftDistinct(ys, known, completed, true);
      SiftDistinct(ys, known, completed, false);
      SortLists(ready);
      SortLists(ready');
      ListingUnique(SortByName(ready), SortByName(ready'));
      if ready == [] {
        if ready' != [] { HasMember(ready'); assert false; }
      } else {
        assert ready[0] in ready';
        var order := SortByName(ready);
        ListOrderIrrelevant(Sift(xs, known, completed, false), Sift(ys, known, completed, false),
          known + ProducedBy(order), completed + ContentsOf(order));
      }
    }
  }
}
