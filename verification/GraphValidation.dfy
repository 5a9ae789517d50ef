/** Validation of a typed model graph (ima/pipeline_graph.py, `PipelineGraph.validate`). */
module GraphValidation {

  datatype Option<+T> = None | Some(value: T)

  type Key = string

  datatype Kind =
    | Estimator | FeatureView | RaceNormalize | Calibrate | WeightedPool | LogPool | MetaEstimator
    | LearnedPool(selectionValid: bool) | MarketBlend | ProbabilisticAdapter | ForwardOofPredict | RankDistribution
    | OtherKind(name: string)

  datatype OutputKind =
    | WinProbability | RankingScore | PointPrediction | PerformanceDistribution | FeatureFrame | JointOrder
    | OtherOutput(name: string)

  datatype Contract = Contract(kind: OutputKind, target: string, unit: string, market: bool) {
    predicate Valid() {
      match kind
      case WinProbability => unit == "probability" && target == "win_probability"
      case RankingScore => unit == "score"
      case PointPrediction => unit in {"mps", "seconds", "log_seconds", "latent"}
      case PerformanceDistribution => unit in {"log_mps", "log_seconds", "latent"}
      case FeatureFrame => unit == "features"
      case JointOrder => unit == "probability"
      case OtherOutput(_) => false
    }
  }

  datatype Scope = ForwardOof | TrainingOnly | NoScope | OtherScope(name: string)

  /** A feature column; the flag says that its lower-cased name is a current market or result column. */
  datatype Column = Column(name: string, currentMarket: bool)

  /** `node.parameters`: whether the model kind is `gaussian_probit`, whether unknown options are present,
      the columns of a feature view, and everything else unread. */
  datatype Parameters = Parameters(probit: bool, stray: bool, features: Option<seq<Column>>, rest: string)

  datatype Node = Node(id: Key, kind: Kind, inputs: seq<Key>, parameters: Parameters, output: Contract, scope: Scope)

  datatype Graph = Graph(
    nodes: seq<Node>, output: Key, fundamental: Option<Key>, primary: Option<Key>, tune: Option<Key>, joint: Option<Key>,
    nSplits: int, minTrainDates: int, schemaVersion: int, hasComponentRefs: bool)

  type Nodes = map<Key, Node>

  datatype Error =
    | DuplicateIds | InvalidProtocol | ExternalReference | BadPrimary | BadTune | UnknownOutput | BadJoint
    | Cycle | UnknownInput | BadContract | BadScope | UnknownFundamental | MissingKey
    | UnusedPrimary | UnusedTune | BadStage | MarketFundamental | RelabelledMarket

  datatype Outcome = Pass | Fail(error: Error)

  function Lookup(nodes: seq<Node>): Nodes {
    if nodes == [] then map[] else Lookup(nodes[..|nodes|-1])[nodes[|nodes|-1].id := nodes[|nodes|-1]]
  }

  predicate UniqueIds(nodes: seq<Node>) {
    forall i, j :: 0 <= i < j < |nodes| ==> nodes[i].id != nodes[j].id
  }

  lemma {:induction false} LookupFacts(nodes: seq<Node>)
    ensures |Lookup(nodes)| == |nodes| <==> UniqueIds(nodes)
    ensures forall k :: k in Lookup(nodes) ==> Lookup(nodes)[k] in nodes && Lookup(nodes)[k].id == k
    ensures forall n :: n in nodes ==> n.id in Lookup(nodes)
    ensures UniqueIds(nodes) ==> forall n :: n in nodes ==> Lookup(nodes)[n.id] == n
  {
    LookupSize(nodes);
    if nodes != [] {
      var init, last := nodes[..|nodes|-1], nodes[|nodes|-1];
      assert nodes == init + [last];
      LookupFacts(init);
      UniqueSnoc(init, last);
      if n :| n in init && n.id == last.id {
        assert n in nodes;
      }
    }
  }

  lemma UniqueSnoc(init: seq<Node>, last: Node)
    ensures UniqueIds(init + [last]) <==> UniqueIds(init) && forall n :: n in init ==> n.id != last.id
  {
    var all := init + [last];
    if UniqueIds(all) {
      forall i, j | 0 <= i < j < |init| ensures init[i].id != init[j].id {
        assert all[i].id != all[j].id;
      }
      forall i | 0 <= i < |init| ensures init[i].id != last.id {
        assert all[i].id != all[|init|].id;
      }
    }
  }

  lemma {:induction false} LookupSize(nodes: seq<Node>)
    ensures |Lookup(nodes)| <= |nodes|
    ensures |Lookup(nodes)| == |nodes| <==> UniqueIds(nodes)
    ensures Lookup(nodes).Keys == set n | n in nodes :: n.id
  {
    if nodes != [] {
      var init, last := nodes[..|nodes|-1], nodes[|nodes|-1];
      assert nodes == init + [last];
      LookupSize(init);
      UniqueSnoc(init, last);
      assert Lookup(nodes) == Lookup(init)[last.id := last];
      hide Lookup, UniqueIds;
      UpdateSize(Lookup(init), last.id, last);
      IdsSnoc(init, last);
    }
  }

  lemma IdsSnoc(init: seq<Node>, last: Node)
    ensures (set n | n in init + [last] :: n.id) == (set n | n in init :: n.id) + {last.id}
    ensures last.id in (set n | n in init :: n.id) <==> exists n :: n in init && n.id == last.id
  {
    var all := init + [last];
    assert last in all;
    assert forall n :: n in all <==> n in init || n == last;
  }

  lemma UpdateSize(nodes: Nodes, k: Key, n: Node)
    ensures nodes[k := n].Keys == nodes.Keys + {k}
    ensures |nodes[k := n]| == if k in nodes then |nodes| else |nodes| + 1
  {
    if k in nodes {
      assert nodes[k := n].Keys == nodes.Keys;
      assert |nodes[k := n].Keys| == |nodes[k := n]| && |nodes.Keys| == |nodes|;
    } else {
      assert nodes[k := n].Keys == nodes.Keys + {k};
      assert |nodes[k := n].Keys| == |nodes[k := n]|;
    }
  }

  // ---- paths ----

  predicate Edge(nodes: Nodes, child: Key, parent: Key) {
    child in nodes && parent in nodes[child].inputs
  }

  /** Each key is an input of the one before it. */
  predicate Path(nodes: Nodes, p: seq<Key>) {
    p != [] && forall i :: 0 <= i < |p| - 1 ==> Edge(nodes, p[i], p[i+1])
  }

  ghost predicate HasCycle(nodes: Nodes) {
    exists p :: Path(nodes, p) && |p| >= 2 && p[0] == p[|p|-1]
  }

  ghost predicate Ancestor(nodes: Nodes, from: Key, to: Key) {
    exists p :: Path(nodes, p) && p[0] == from && p[|p|-1] == to
  }

  lemma ExtendPath(nodes: Nodes, p: seq<Key>, k: Key)
    requires Path(nodes, p) && Edge(nodes, p[|p|-1], k)
    ensures Path(nodes, p + [k])
  {
    var q := p + [k];
    forall i | 0 <= i < |q| - 1 ensures Edge(nodes, q[i], q[i+1]) {
      if i == |p| - 1 {
        assert q[i] == p[|p|-1] && q[i+1] == k;
      } else {
        assert Edge(nodes, p[i], p[i+1]);
      }
    }
  }

  // ---- the depth-first visit ----

  predicate LocalOk(node: Node) {
    node.output.Valid() && !node.scope.OtherScope?
  }

  /** Every listed node is known and sound, and comes after all of its inputs. */
  ghost predicate Topological(nodes: Nodes, order: seq<Key>) {
    && (forall i, j :: 0 <= i < j < |order| ==> order[i] != order[j])
    && (forall i :: 0 <= i < |order| ==> order[i] in nodes && LocalOk(nodes[order[i]]))
    && (forall i, k :: 0 <= i < |order| && k in nodes[order[i]].inputs ==> k in order[..i])
  }

  ghost predicate Complete(nodes: Nodes, order: seq<Key>) {
    Topological(nodes, order) && forall k :: k in nodes ==> k in order
  }

  /** What makes the visit reject. */
  ghost predicate Faulty(nodes: Nodes) {
    || HasCycle(nodes)
    || (exists k :: k in nodes && !LocalOk(nodes[k]))
    || (exists child, k :: Edge(nodes, child, k) && k !in nodes)
  }

  /** `visit`: `stack` is the path of active keys, `order` the keys already finished. */
  method Visit(nodes: Nodes, key: Key, visited: set<Key>, active: set<Key>, ghost stack: seq<Key>, ghost order: seq<Key>)
    returns (r: Outcome, visited': set<Key>, ghost order': seq<Key>)
    requires key in nodes || (stack != [] && Edge(nodes, stack[|stack|-1], key))
    requires stack != [] ==> Path(nodes, stack) && Edge(nodes, stack[|stack|-1], key)
    requires active == (set k | k in stack) && active <= nodes.Keys
    requires visited == (set k | k in order) && Topological(nodes, order) && active !! visited
    ensures r.Pass? ==> visited' == (set k | k in order') && Topological(nodes, order')
    ensures r.Pass? ==> order <= order' && key in order' && active !! visited'
    ensures r.Fail? ==> Faulty(nodes)
    decreases nodes.Keys - active, 1
  {
    visited', order' := visited, order;
    if key in active {
      CycleOnStack(nodes, stack, key);
      return Fail(Cycle), visited', order';
    }
    if key in visited {
      return Pass, visited', order';
    }
    if key !in nodes {
      return Fail(UnknownInput), visited', order';
    }
    var node := nodes[key];
    if !node.output.Valid() {
      return Fail(BadContract), visited', order';
    }
    if node.scope.OtherScope? {
      return Fail(BadScope), visited', order';
    }
    ghost var stack' := stack + [key];
    if stack != [] { ExtendPath(nodes, stack, key); }
    for k := 0 to |node.inputs|
      invariant visited' == (set x | x in order') && Topological(nodes, order')
      invariant order <= order' && active + {key} !! visited'
      invariant forall x :: x in node.inputs[..k] ==> x in order'
    {
      var before := order';
      assert Edge(nodes, key, node.inputs[k]);
      r, visited', order' := Visit(nodes, node.inputs[k], visited', active + {key}, stack', order');
      if r.Fail? {
        return;
      }
      assert node.inputs[..k+1] == node.inputs[..k] + [node.inputs[k]];
    }
    assert node.inputs[..|node.inputs|] == node.inputs;
    AppendTopological(nodes, order', key);
    order' := order' + [key];
    visited' := visited' + {key};
    r := Pass;
  }

  lemma EmptyTopological(nodes: Nodes)
    ensures Topological(nodes, [])
  {}

  lemma AppendTopological(nodes: Nodes, order: seq<Key>, key: Key)
    requires Topological(nodes, order) && key !in order && key in nodes && LocalOk(nodes[key])
    requires forall x :: x in nodes[key].inputs ==> x in order
    ensures Topological(nodes, order + [key])
  {
    var all := order + [key];
    forall i, k | 0 <= i < |all| && k in nodes[all[i]].inputs ensures k in all[..i] {
      if i < |order| {
        assert all[..i] == order[..i];
      } else {
        assert all[..i] == order;
      }
    }
  }

  lemma CycleOnStack(nodes: Nodes, stack: seq<Key>, key: Key)
    requires key in stack && Path(nodes, stack) && Edge(nodes, stack[|stack|-1], key)
    ensures HasCycle(nodes)
  {
    var i :| 0 <= i < |stack| && stack[i] == key;
    var p := stack[i..];
    forall j | 0 <= j < |p| - 1 ensures Edge(nodes, p[j], p[j+1]) {
      assert Edge(nodes, stack[i+j], stack[i+j+1]);
    }
    ExtendPath(nodes, p, key);
    assert (p + [key])[0] == key;
  }

  /** Visiting every node accepts exactly the graphs with sound nodes, known inputs and no cycle. */
  method VisitAll(g: Graph) returns (r: Outcome, ghost order: seq<Key>)
    requires UniqueIds(g.nodes)
    ensures r.Pass? <==> !Faulty(Lookup(g.nodes))
    ensures r.Pass? ==> Complete(Lookup(g.nodes), order)
  {
    hide Lookup, Faulty, LocalOk, Topological, UniqueIds;
    var nodes := Lookup(g.nodes);
    LookupFacts(g.nodes);
    var visited: set<Key> := {};
    order := [];
    EmptyTopological(nodes);
    for k := 0 to |g.nodes|
      invariant visited == (set x | x in order) && Topological(nodes, order)
      invariant forall i :: 0 <= i < k ==> g.nodes[i].id in order
    {
      assert g.nodes[k] in g.nodes;
      r, visited, order := Visit(nodes, g.nodes[k].id, visited, {}, [], order);
      if r.Fail? {
        return;
      }
    }
    forall k | k in nodes ensures k in order {
      var n := nodes[k];
      var i :| 0 <= i < |g.nodes| && g.nodes[i] == n;
    }
    CompleteNotFaulty(nodes, order);
    r := Pass;
  }

  function Rank(order: seq<Key>, k: Key): (i: nat)
    requires k in order
    ensures i < |order| && order[i] == k
  {
    if order[0] == k then 0 else 1 + Rank(order[1..], k)
  }

  /** The finishing order is a measure: every input of a node has a smaller rank. */
  lemma RankDecreases(nodes: Nodes, order: seq<Key>, child: Key, parent: Key)
    requires Complete(nodes, order) && Edge(nodes, child, parent)
    ensures parent in nodes && child in order && parent in order && Rank(order, parent) < Rank(order, child)
  {
    var i := Rank(order, child);
    assert parent in order[..i];
    var j :| 0 <= j < i && order[..i][j] == parent;
    assert order[j] == parent && order[Rank(order, parent)] == parent;
  }

  lemma {:induction false} PathDescends(nodes: Nodes, order: seq<Key>, p: seq<Key>)
    requires Complete(nodes, order) && Path(nodes, p) && p[0] in nodes
    ensures p[|p|-1] in nodes && p[0] in order && p[|p|-1] in order
    ensures Rank(order, p[|p|-1]) <= Rank(order, p[0])
    ensures |p| >= 2 ==> Rank(order, p[|p|-1]) < Rank(order, p[0])
    decreases |p|
  {
    if |p| >= 2 {
      assert Edge(nodes, p[0], p[1]);
      RankDecreases(nodes, order, p[0], p[1]);
      forall i | 0 <= i < |p[1..]| - 1 ensures Edge(nodes, p[1..][i], p[1..][i+1]) {
        assert Edge(nodes, p[i+1], p[i+2]);
      }
      PathDescends(nodes, order, p[1..]);
    }
  }

  lemma CompleteNotFaulty(nodes: Nodes, order: seq<Key>)
    requires Complete(nodes, order)
    ensures !Faulty(nodes)
  {
    forall p | Path(nodes, p) && |p| >= 2 ensures p[0] != p[|p|-1] {
      assert Edge(nodes, p[0], p[1]);
      PathDescends(nodes, order, p);
    }
    forall k | k in nodes ensures LocalOk(nodes[k]) {
      assert order[Rank(order, k)] == k;
    }
    forall child, k | Edge(nodes, child, k) ensures k in nodes {
      RankDecreases(nodes, order, child, k);
    }
  }

  // ---- reachability of the endpoints ----

  ghost predicate Closed(nodes: Nodes, reachable: set<Key>) {
    forall child, k :: child in reachable && Edge(nodes, child, k) ==> k in reachable
  }

  ghost predicate ClosedBeyond(nodes: Nodes, before: set<Key>, reachable: set<Key>) {
    forall child, k :: child in reachable && child !in before && Edge(nodes, child, k) ==> k in reachable
  }

  lemma StepAncestor(nodes: Nodes, from: Key, mid: Key, to: Key)
    requires Edge(nodes, from, mid) && Ancestor(nodes, mid, to)
    ensures Ancestor(nodes, from, to)
  {
    var p :| Path(nodes, p) && p[0] == mid && p[|p|-1] == to;
    var q := [from] + p;
    forall i | 0 <= i < |q| - 1 ensures Edge(nodes, q[i], q[i+1]) {
      if i > 0 { assert Edge(nodes, p[i-1], p[i]); }
    }
    assert q[0] == from && q[|q|-1] == to;
  }

  lemma SelfAncestor(nodes: Nodes, k: Key)
    ensures Ancestor(nodes, k, k)
  {
    var p := [k];
    assert Path(nodes, p) && p[0] == k && p[|p|-1] == k;
  }

  /** `collect`: a key without a node raises. */
  method Collect(nodes: Nodes, key: Key, reachable: set<Key>) returns (ok: bool, reachable': set<Key>)
    requires forall child, k :: Edge(nodes, child, k) ==> k in nodes
    requires reachable <= nodes.Keys
    ensures ok <==> key in nodes || key in reachable
    ensures ok ==> reachable + {key} <= reachable' <= nodes.Keys && ClosedBeyond(nodes, reachable, reachable')
    ensures ok ==> forall k :: k in reachable' && k !in reachable ==> Ancestor(nodes, key, k)
    decreases nodes.Keys - reachable
  {
    reachable' := reachable;
    if key in reachable {
      return true, reachable';
    }
    if key !in nodes {
      return false, reachable';
    }
    reachable' := reachable + {key};
    SelfAncestor(nodes, key);
    var inputs := nodes[key].inputs;
    for i := 0 to |inputs|
      invariant reachable + {key} <= reachable' <= nodes.Keys
      invariant forall child, k :: child in reachable' && child !in reachable && child != key && Edge(nodes, child, k)
                  ==> k in reachable'
      invariant forall k :: k in inputs[..i] ==> k in reachable'
      invariant forall k :: k in reachable' && k !in reachable ==> Ancestor(nodes, key, k)
    {
      var before := reachable';
      assert Edge(nodes, key, inputs[i]);
      ok, reachable' := Collect(nodes, inputs[i], reachable');
      forall k | k in reachable' && k !in before ensures Ancestor(nodes, key, k) {
        StepAncestor(nodes, key, inputs[i], k);
      }
      assert inputs[..i+1] == inputs[..i] + [inputs[i]];
    }
    assert inputs[..|inputs|] == inputs;
    ok := true;
  }

  lemma {:induction false} ClosedHoldsPath(nodes: Nodes, reachable: set<Key>, p: seq<Key>)
    requires Closed(nodes, reachable) && Path(nodes, p) && p[0] in reachable
    ensures p[|p|-1] in reachable
    decreases |p|
  {
    if |p| >= 2 {
      assert Edge(nodes, p[0], p[1]);
      forall i | 0 <= i < |p[1..]| - 1 ensures Edge(nodes, p[1..][i], p[1..][i+1]) {
        assert Edge(nodes, p[i+1], p[i+2]);
      }
      ClosedHoldsPath(nodes, reachable, p[1..]);
    }
  }

  /** The keys collected from the roots are exactly their ancestries. */
  method CollectRoots(nodes: Nodes, roots: seq<Option<Key>>) returns (ok: bool, reachable: set<Key>)
    requires forall child, k :: Edge(nodes, child, k) ==> k in nodes
    ensures ok <==> forall root :: Some(root) in roots ==> root in nodes
    ensures ok ==> forall k :: k in reachable <==> exists root :: Some(root) in roots && Ancestor(nodes, root, k)
  {
    reachable := {};
    for i := 0 to |roots|
      invariant reachable <= nodes.Keys && Closed(nodes, reachable)
      invariant forall root :: Some(root) in roots[..i] ==> root in reachable
      invariant forall k :: k in reachable ==> exists root :: Some(root) in roots && Ancestor(nodes, root, k)
    {
      assert roots[..i+1] == roots[..i] + [roots[i]];
      if roots[i].Some? {
        var before := reachable;
        assert Some(roots[i].value) in roots;
        ok, reachable := Collect(nodes, roots[i].value, reachable);
        if !ok {
          return;
        }
      }
    }
    assert roots[..|roots|] == roots;
    forall root, k | Some(root) in roots && Ancestor(nodes, root, k) ensures k in reachable {
      var p :| Path(nodes, p) && p[0] == root && p[|p|-1] == k;
      ClosedHoldsPath(nodes, reachable, p);
    }
    ok := true;
  }

  // ---- stage contracts ----

  function Parents(node: Node, nodes: Nodes): seq<Node>
    requires forall k :: k in node.inputs ==> k in nodes
  {
    seq(|node.inputs|, i requires 0 <= i < |node.inputs| => assert node.inputs[i] in node.inputs; nodes[node.inputs[i]])
  }

  /** `_learned_stage` */
  predicate LearnedStage(node: Node, nodes: Nodes) {
    node.kind in {MetaEstimator, Calibrate, MarketBlend} || node.kind.LearnedPool?
    || (node.kind.RaceNormalize? && node.inputs != [] && node.inputs[0] in nodes
        && nodes[node.inputs[0]].output.kind.RankingScore?)
  }

  predicate StageOk(node: Node, nodes: Nodes)
    requires forall k :: k in node.inputs ==> k in nodes
  {
    var parents := Parents(node, nodes);
    && (match node.kind
        case OtherKind(_) => false
        case WeightedPool | LogPool | MetaEstimator | LearnedPool(_) =>
          && parents != []
          && (forall p :: p in parents ==> p.output == parents[0].output)
          && parents[0].output.kind.WinProbability? && node.output == parents[0].output
          && (node.kind.LearnedPool? ==> node.kind.selectionValid)
        case Calibrate | MarketBlend | ForwardOofPredict =>
          && |parents| == 1 && parents[0].output.kind.WinProbability?
          && (if node.kind.MarketBlend?
              then !parents[0].output.market && node.output.market && node.output.kind.WinProbability?
              else node.output == parents[0].output)
        case RaceNormalize =>
          && |parents| == 1 && parents[0].output.kind in {RankingScore, WinProbability} && node.output.kind.WinProbability?
        case ProbabilisticAdapter =>
          && |parents| == 1 && parents[0].output.kind.PerformanceDistribution? && node.output.kind.WinProbability?
        case RankDistribution =>
          && |parents| == 1 && parents[0].output.kind in {PerformanceDistribution, WinProbability} && node.output.kind.JointOrder?
        case Estimator => |parents| <= 1 && forall p :: p in parents ==> p.kind.FeatureView?
        case FeatureView => parents == [] && node.output.kind.FeatureFrame?)
    && (LearnedStage(node, nodes) ==> node.scope.ForwardOof?)
  }

  // ---- market isolation ----

  predicate Market(node: Node) {
    node.output.market || node.kind.MarketBlend?
  }

  /** `market_ancestor`; the finishing order makes the recursion terminate. */
  predicate MarketAncestor(nodes: Nodes, ghost order: seq<Key>, key: Key)
    requires Complete(nodes, order) && key in nodes
    decreases Rank(order, key)
  {
    var inputs := nodes[key].inputs;
    Market(nodes[key])
    || exists i :: 0 <= i < |inputs| &&
         (RankDecreases(nodes, order, key, inputs[i]); MarketAncestor(nodes, order, inputs[i]))
  }

  ghost predicate Tainted(nodes: Nodes, key: Key) {
    exists a :: a in nodes && Ancestor(nodes, key, a) && Market(nodes[a])
  }

  lemma {:induction false} MarketAncestorMeaning(nodes: Nodes, order: seq<Key>, key: Key)
    requires Complete(nodes, order) && key in nodes
    ensures MarketAncestor(nodes, order, key) <==> Tainted(nodes, key)
    decreases Rank(order, key)
  {
    var inputs := nodes[key].inputs;
    forall i | 0 <= i < |inputs|
      ensures Edge(nodes, key, inputs[i]) && inputs[i] in nodes && Rank(order, inputs[i]) < Rank(order, key)
           && (MarketAncestor(nodes, order, inputs[i]) <==> Tainted(nodes, inputs[i]))
    {
      RankDecreases(nodes, order, key, inputs[i]);
      MarketAncestorMeaning(nodes, order, inputs[i]);
    }
    if MarketAncestor(nodes, order, key) {
      if Market(nodes[key]) {
        SelfAncestor(nodes, key);
      } else {
        var i :| 0 <= i < |inputs| && MarketAncestor(nodes, order, inputs[i]);
        var a :| a in nodes && Ancestor(nodes, inputs[i], a) && Market(nodes[a]);
        StepAncestor(nodes, key, inputs[i], a);
      }
    }
    if Tainted(nodes, key) {
      var a :| a in nodes && Ancestor(nodes, key, a) && Market(nodes[a]);
      if a != key {
        var i := FirstStep(nodes, key, a);
        assert Tainted(nodes, inputs[i]);
      }
    }
  }

  lemma FirstStep(nodes: Nodes, from: Key, to: Key) returns (i: nat)
    requires Ancestor(nodes, from, to) && from != to
    ensures from in nodes && i < |nodes[from].inputs| && Ancestor(nodes, nodes[from].inputs[i], to)
  {
    var p :| Path(nodes, p) && p[0] == from && p[|p|-1] == to;
    assert Edge(nodes, p[0], p[1]);
    i :| 0 <= i < |nodes[from].inputs| && nodes[from].inputs[i] == p[1];
    var q := p[1..];
    forall j | 0 <= j < |q| - 1 ensures Edge(nodes, q[j], q[j+1]) {
      assert Edge(nodes, p[j+1], p[j+2]);
    }
    assert q[0] == p[1] && q[|q|-1] == to;
  }

  predicate NoRelabel(nodes: Nodes) {
    forall k :: k in nodes && !nodes[k].output.market ==>
      forall p :: p in nodes[k].inputs && p in nodes ==> !nodes[p].output.market
  }

  // ---- the whole validation ----

  function FundamentalKey(g: Graph): Key {
    if g.fundamental.Some? && g.fundamental.value != "" then g.fundamental.value else g.output
  }

  predicate EstimatorName(name: Option<Key>, nodes: Nodes) {
    name.Some? && name.value != "" ==> name.value in nodes && nodes[name.value].kind.Estimator?
  }

  ghost predicate Used(g: Graph, name: Option<Key>) {
    name.Some? ==> exists root :: Some(root) in [Some(g.output), Some(FundamentalKey(g)), g.joint]
                               && Ancestor(Lookup(g.nodes), root, name.value)
  }

  /** What is asked of a graph before it is walked. */
  ghost predicate HeaderOk(g: Graph) {
    var nodes := Lookup(g.nodes);
    && UniqueIds(g.nodes) && g.nodes != []
    && g.nSplits >= 2 && g.minTrainDates >= 1 && g.schemaVersion == 1 && !g.hasComponentRefs
    && EstimatorName(g.primary, nodes) && EstimatorName(g.tune, nodes)
    && g.output in nodes
    && (g.joint.Some? && g.joint.value != "" ==> g.joint.value in nodes && nodes[g.joint.value].output.kind.JointOrder?)
  }

  ghost predicate Accepts(g: Graph) {
    var nodes := Lookup(g.nodes);
    && HeaderOk(g)
    && FundamentalKey(g) in nodes && (g.joint.Some? ==> g.joint.value in nodes)
    && !Faulty(nodes)
    && Used(g, g.primary) && Used(g, g.tune)
    && (forall k :: k in nodes ==> (forall p :: p in nodes[k].inputs ==> p in nodes) && StageOk(nodes[k], nodes))
    && !Tainted(nodes, FundamentalKey(g))
    && NoRelabel(nodes)
  }

  /** The checks made before the graph is walked. */
  function HeaderFault(g: Graph, nodes: Nodes): Option<Error> {
    if |nodes| != |g.nodes| || |nodes| == 0 then Some(DuplicateIds)
    else if g.nSplits < 2 || g.minTrainDates < 1 || g.schemaVersion != 1 then Some(InvalidProtocol)
    else if g.hasComponentRefs then Some(ExternalReference)
    else if !EstimatorName(g.primary, nodes) then Some(BadPrimary)
    else if !EstimatorName(g.tune, nodes) then Some(BadTune)
    else if g.output !in nodes then Some(UnknownOutput)
    else if g.joint.Some? && g.joint.value != ""
      && (g.joint.value !in nodes || !nodes[g.joint.value].output.kind.JointOrder?) then Some(BadJoint)
    else None
  }

  lemma HeaderMeans(g: Graph)
    ensures HeaderFault(g, Lookup(g.nodes)).None? <==> HeaderOk(g)
  {
    hide Lookup, UniqueIds, EstimatorName;
    LookupFacts(g.nodes);
  }

  method CheckStages(g: Graph) returns (ok: bool)
    requires UniqueIds(g.nodes)
    requires forall child, k :: child in Lookup(g.nodes) && k in Lookup(g.nodes)[child].inputs ==> k in Lookup(g.nodes)
    ensures ok <==> forall k :: k in Lookup(g.nodes) ==> StageOk(Lookup(g.nodes)[k], Lookup(g.nodes))
  {
    hide Lookup, StageOk;
    var nodes := Lookup(g.nodes);
    LookupFacts(g.nodes);
    for i := 0 to |g.nodes|
      invariant forall j :: 0 <= j < i ==> g.nodes[j].id in nodes && nodes[g.nodes[j].id] == g.nodes[j] && StageOk(g.nodes[j], nodes)
    {
      assert g.nodes[i] in g.nodes;
      if !StageOk(g.nodes[i], nodes) {
        return false;
      }
    }
    forall k | k in nodes ensures StageOk(nodes[k], nodes) {
      var j :| 0 <= j < |g.nodes| && g.nodes[j] == nodes[k];
    }
    ok := true;
  }

  /** `validate` returns normally exactly on the graphs that meet the declared contract. */
  method Validate(g: Graph) returns (r: Outcome, ghost order: seq<Key>)
    ensures r.Pass? <==> Accepts(g)
    ensures r.Pass? ==> Complete(Lookup(g.nodes), order)
  {
    hide Faulty, Tainted, Complete, StageOk, Ancestor, Lookup, EstimatorName, NoRelabel, MarketAncestor;
    order := [];
    var nodes := Lookup(g.nodes);
    LookupFacts(g.nodes);
    var header := HeaderFault(g, nodes);
    HeaderMeans(g);
    hide HeaderFault;
    if header.Some? { return Fail(header.value), order; }
    r, order := VisitAll(g);
    if r.Fail? { return; }
    var fundamental := FundamentalKey(g);
    if fundamental !in nodes { return Fail(UnknownFundamental), order; }
    KnownInputs(nodes, order);
    var roots := [Some(g.output), Some(fundamental), g.joint];
    assert forall root :: Some(root) in roots <==> root == g.output || root == fundamental || g.joint == Some(root);
    var ok, reachable := CollectRoots(nodes, roots);
    if !ok { return Fail(MissingKey), order; }
    if g.primary.Some? && g.primary.value !in reachable { return Fail(UnusedPrimary), order; }
    if g.tune.Some? && g.tune.value !in reachable { return Fail(UnusedTune), order; }
    ok := CheckStages(g);
    if !ok { return Fail(BadStage), order; }
    MarketAncestorMeaning(nodes, order, fundamental);
    if MarketAncestor(nodes, order, fundamental) { return Fail(MarketFundamental), order; }
    if !NoRelabel(nodes) { return Fail(RelabelledMarket), order; }
    r := Pass;
  }

  lemma KnownInputs(nodes: Nodes, order: seq<Key>)
    requires Complete(nodes, order)
    ensures forall child, k :: Edge(nodes, child, k) ==> k in nodes
    ensures forall child, k :: child in nodes && k in nodes[child].inputs ==> k in nodes
  {
    forall child, k | Edge(nodes, child, k) ensures k in nodes {
      RankDecreases(nodes, order, child, k);
    }
    forall child, k | child in nodes && k in nodes[child].inputs ensures k in nodes {
      assert Edge(nodes, child, k);
    }
  }

  /** Market isolation: in an accepted graph a non-market node has no market output and no market
      blend anywhere in its ancestry. */
  lemma MarketIsolation(g: Graph, key: Key, ancestor: Key)
    requires Accepts(g) && key in Lookup(g.nodes) && !Lookup(g.nodes)[key].output.market
    requires Ancestor(Lookup(g.nodes), key, ancestor)
    ensures ancestor in Lookup(g.nodes) && !Market(Lookup(g.nodes)[ancestor])
  {
    var nodes := Lookup(g.nodes);
    var p :| Path(nodes, p) && p[0] == key && p[|p|-1] == ancestor;
    IsolatedPath(g, p);
  }

  lemma {:induction false} IsolatedPath(g: Graph, p: seq<Key>)
    requires Accepts(g) && Path(Lookup(g.nodes), p)
    requires p[0] in Lookup(g.nodes) && !Lookup(g.nodes)[p[0]].output.market
    ensures p[|p|-1] in Lookup(g.nodes) && !Market(Lookup(g.nodes)[p[|p|-1]])
    decreases |p|
  {
    hide Lookup, Faulty, Tainted, Used;
    var nodes := Lookup(g.nodes);
    assert StageOk(nodes[p[0]], nodes);
    if |p| >= 2 {
      assert Edge(nodes, p[0], p[1]);
      forall i | 0 <= i < |p[1..]| - 1 ensures Edge(nodes, p[1..][i], p[1..][i+1]) {
        assert Edge(nodes, p[i+1], p[i+2]);
      }
      IsolatedPath(g, p[1..]);
    }
  }
}
