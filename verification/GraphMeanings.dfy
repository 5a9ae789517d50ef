/** The contract of a model graph, read relation by relation (ima/pipeline_graph.py). */
module GraphMeanings {
  import opened GraphValidation

  /** The unit fits what is put out. */
  ghost predicate UnitFits(c: Contract) {
    || (c.unit == "probability" && (c.kind == JointOrder || (c.kind == WinProbability && c.target == "win_probability")))
    || (c.unit == "score" && c.kind == RankingScore)
    || (c.unit in {"mps", "seconds"} && c.kind == PointPrediction)
    || (c.unit in {"log_seconds", "latent"} && c.kind in {PointPrediction, PerformanceDistribution})
    || (c.unit == "log_mps" && c.kind == PerformanceDistribution)
    || (c.unit == "features" && c.kind == FeatureFrame)
  }

  lemma UnitExactly(c: Contract)
    ensures c.Valid() <==> UnitFits(c)
  {}

  predicate Pooling(kind: Kind) {
    kind in {WeightedPool, LogPool, MetaEstimator} || kind.LearnedPool?
  }

  ghost predicate Arity(kind: Kind, inputs: nat) {
    if kind.FeatureView? then inputs == 0
    else if kind.Estimator? then inputs <= 1
    else if Pooling(kind) then inputs >= 1
    else inputs == 1
  }

  /** What a stage may be fed with: pools, calibrations and pass-through stages only with their own contract. */
  ghost predicate Feeds(p: Node, node: Node) {
    if node.kind.Estimator? then p.kind == FeatureView
    else if node.kind == MarketBlend then p.output.kind == WinProbability && !p.output.market
    else if node.kind == ProbabilisticAdapter then p.output.kind == PerformanceDistribution
    else if node.kind == RankDistribution then p.output.kind in {WinProbability, PerformanceDistribution}
    else if node.kind == RaceNormalize then p.output.kind in {WinProbability, RankingScore}
    else p.output == node.output
  }

  ghost predicate PutsOut(node: Node) {
    if node.kind.FeatureView? then node.output.kind == FeatureFrame
    else if node.kind == RankDistribution then node.output.kind == JointOrder
    else node.kind.Estimator? || (node.output.kind == WinProbability && (node.kind == MarketBlend ==> node.output.market))
  }

  /** Stages that learn from forward predictions. */
  ghost predicate LearnsDownstream(node: Node, parents: seq<Node>) {
    || node.kind in {MetaEstimator, Calibrate, MarketBlend} || node.kind.LearnedPool?
    || (node.kind == RaceNormalize && parents != [] && parents[0].output.kind == RankingScore)
  }

  ghost predicate Composes(node: Node, parents: seq<Node>) {
    && !node.kind.OtherKind? && (node.kind.LearnedPool? ==> node.kind.selectionValid)
    && Arity(node.kind, |parents|) && (forall i :: 0 <= i < |parents| ==> Feeds(parents[i], node)) && PutsOut(node)
    && (LearnsDownstream(node, parents) ==> node.scope == ForwardOof)
  }

  /** The per-stage checks say exactly which stages compose. */
  lemma StageExactly(node: Node, nodes: Nodes)
    requires forall k :: k in node.inputs ==> k in nodes
    ensures StageOk(node, nodes) <==> Composes(node, Parents(node, nodes))
  {
    var parents := Parents(node, nodes);
    assert |parents| == |node.inputs|;
    LearnsExactly(node, nodes);
    hide LearnedStage, LearnsDownstream;
    if Pooling(node.kind) && parents != [] { PoolsAlike(node, parents); }
    assert (forall p :: p in parents ==> Feeds(p, node)) <==> (forall i :: 0 <= i < |parents| ==> Feeds(parents[i], node));
  }

  lemma LearnsExactly(node: Node, nodes: Nodes)
    requires forall k :: k in node.inputs ==> k in nodes
    ensures LearnedStage(node, nodes) <==> LearnsDownstream(node, Parents(node, nodes))
  {
    if node.inputs != [] { assert node.inputs[0] in nodes && Parents(node, nodes)[0] == nodes[node.inputs[0]]; }
  }

  lemma PoolsAlike(node: Node, parents: seq<Node>)
    requires parents != []
    ensures (forall p :: p in parents ==> p.output == parents[0].output) && node.output == parents[0].output
       <==> forall i :: 0 <= i < |parents| ==> parents[i].output == node.output
  {
    assert parents[0] in parents;
    if forall i :: 0 <= i < |parents| ==> parents[i].output == node.output {
      forall p | p in parents ensures p.output == parents[0].output { var i :| 0 <= i < |parents| && parents[i] == p; }
    }
    if forall p :: p in parents ==> p.output == parents[0].output {
      forall i | 0 <= i < |parents| ensures parents[i].output == parents[0].output { assert parents[i] in parents; }
    }
  }

  // ---- whole graphs ----

  /** A node of that name. */
  ghost predicate Names(g: Graph, name: Key, node: Node) {
    node in g.nodes && node.id == name
  }

  /** The nodes a graph is evaluated at: its output, its fundamental output (the output itself unless another is named)
      and its joint output if there is one. */
  ghost predicate Endpoint(g: Graph, root: Key) {
    root == g.output || Fundamental(g, root) || g.joint == Some(root)
  }

  ghost predicate Fundamental(g: Graph, root: Key) {
    match g.fundamental
    case Some(name) => if name == "" then root == g.output else root == name
    case None => root == g.output
  }

  /** An optional choice of an estimator that some endpoint uses. */
  ghost predicate Chosen(g: Graph, name: Option<Key>) {
    name.Some? ==>
      && (name.value != "" ==> exists node :: Names(g, name.value, node) && node.kind == Estimator)
      && exists root :: Endpoint(g, root) && Ancestor(Lookup(g.nodes), root, name.value)
  }

  ghost predicate ProtocolOk(g: Graph) {
    && g.nodes != [] && (forall i, j :: 0 <= i < |g.nodes| && 0 <= j < |g.nodes| && i != j ==> g.nodes[i].id != g.nodes[j].id)
    && 2 <= g.nSplits && 1 <= g.minTrainDates && g.schemaVersion == 1 && !g.hasComponentRefs
  }

  ghost predicate EndpointsOk(g: Graph) {
    && (exists node :: Names(g, g.output, node))
    && (forall root :: Fundamental(g, root) ==> exists node :: Names(g, root, node))
    && (g.joint.Some? ==> exists node :: Names(g, g.joint.value, node) && (g.joint.value != "" ==> node.output.kind == JointOrder))
  }

  /** Known inputs that compose, fitting units, known scopes, and nothing relabelled: what is put out as fundamental is
      not fed with market outputs. */
  ghost predicate NodeOk(g: Graph, node: Node) {
    var nodes := Lookup(g.nodes);
    && UnitFits(node.output) && !node.scope.OtherScope?
    && (forall k :: k in node.inputs ==> k in nodes)
    && Composes(node, Parents(node, nodes))
    && (!node.output.market ==> forall p :: p in Parents(node, nodes) ==> !p.output.market)
  }

  /** No endpoint named fundamental has a market output or a market blend anywhere above it. */
  ghost predicate Untouched(g: Graph) {
    forall root, a :: Fundamental(g, root) && a in g.nodes && Ancestor(Lookup(g.nodes), root, a.id) ==>
      !a.output.market && a.kind != MarketBlend
  }

  lemma KnownNames(g: Graph, name: Key)
    requires UniqueIds(g.nodes)
    ensures name in Lookup(g.nodes) <==> exists node :: Names(g, name, node)
    ensures forall node :: Names(g, name, node) ==> name in Lookup(g.nodes) && Lookup(g.nodes)[name] == node
  {
    LookupFacts(g.nodes);
    hide Lookup, UniqueIds;
    if name in Lookup(g.nodes) { assert Names(g, name, Lookup(g.nodes)[name]); }
  }

  lemma UniqueExactly(nodes: seq<Node>)
    ensures UniqueIds(nodes) <==> forall i, j :: 0 <= i < |nodes| && 0 <= j < |nodes| && i != j ==> nodes[i].id != nodes[j].id
  {}

  lemma EndpointExactly(g: Graph, root: Key)
    ensures Fundamental(g, root) <==> root == FundamentalKey(g)
    ensures Endpoint(g, root) <==> Some(root) in [Some(g.output), Some(FundamentalKey(g)), g.joint]
  {}

  lemma ChosenExactly(g: Graph, name: Option<Key>)
    requires UniqueIds(g.nodes)
    ensures Chosen(g, name) <==> EstimatorName(name, Lookup(g.nodes)) && Used(g, name)
  {
    hide Lookup, UniqueIds, Ancestor, Endpoint, FundamentalKey, Names;
    if name.Some? {
      KnownNames(g, name.value);
      forall root ensures Endpoint(g, root) <==> Some(root) in [Some(g.output), Some(FundamentalKey(g)), g.joint] { EndpointExactly(g, root); }
    }
  }

  lemma EndpointsExactly(g: Graph)
    requires UniqueIds(g.nodes)
    ensures EndpointsOk(g) <==>
      && g.output in Lookup(g.nodes) && FundamentalKey(g) in Lookup(g.nodes)
      && (g.joint.Some? ==> g.joint.value in Lookup(g.nodes))
      && (g.joint.Some? && g.joint.value != "" ==> Lookup(g.nodes)[g.joint.value].output.kind.JointOrder?)
  {
    hide Lookup, UniqueIds, FundamentalKey, Fundamental, Names;
    KnownNames(g, g.output);
    KnownNames(g, FundamentalKey(g));
    forall root ensures Fundamental(g, root) <==> root == FundamentalKey(g) { EndpointExactly(g, root); }
    assert Fundamental(g, FundamentalKey(g));
    if g.joint.Some? { KnownNames(g, g.joint.value); }
  }

  lemma UntouchedExactly(g: Graph)
    requires UniqueIds(g.nodes)
    ensures Untouched(g) <==> !Tainted(Lookup(g.nodes), FundamentalKey(g))
  {
    LookupFacts(g.nodes);
    hide Lookup, UniqueIds, FundamentalKey, Fundamental, Ancestor;
    var nodes := Lookup(g.nodes);
    forall root ensures Fundamental(g, root) <==> root == FundamentalKey(g) { EndpointExactly(g, root); }
    assert Fundamental(g, FundamentalKey(g));
    forall a | a in g.nodes ensures a.id in nodes && nodes[a.id] == a {}
    if Tainted(nodes, FundamentalKey(g)) {
      var a :| a in nodes && Ancestor(nodes, FundamentalKey(g), a) && Market(nodes[a]);
      assert nodes[a] in g.nodes && nodes[a].id == a;
    }
  }

  lemma NodesExactly(g: Graph)
    requires UniqueIds(g.nodes)
    ensures var nodes := Lookup(g.nodes);
            (forall node :: node in g.nodes ==> NodeOk(g, node)) <==>
              && (forall k :: k in nodes ==> LocalOk(nodes[k]))
              && (forall k :: k in nodes ==> (forall p :: p in nodes[k].inputs ==> p in nodes) && StageOk(nodes[k], nodes))
              && NoRelabel(nodes)
  {
    LookupFacts(g.nodes);
    hide Lookup, UniqueIds, StageOk, Composes, UnitFits, Contract.Valid;
    var nodes := Lookup(g.nodes);
    forall k | k in nodes
      ensures NodeOk(g, nodes[k]) <==>
        && LocalOk(nodes[k]) && (forall p :: p in nodes[k].inputs ==> p in nodes) && StageOk(nodes[k], nodes)
        && (!nodes[k].output.market ==> forall p :: p in nodes[k].inputs && p in nodes ==> !nodes[p].output.market)
    {
      NodeExactly(g, nodes[k]);
    }
    hide NodeOk;
    forall node | node in g.nodes ensures node.id in nodes && nodes[node.id] == node {}
  }

  lemma NodeExactly(g: Graph, node: Node)
    ensures var nodes := Lookup(g.nodes);
      NodeOk(g, node) <==>
        && LocalOk(node) && (forall p :: p in node.inputs ==> p in nodes) && StageOk(node, nodes)
        && (!node.output.market ==> forall p :: p in node.inputs && p in nodes ==> !nodes[p].output.market)
  {
    hide Lookup, StageOk, Composes, UnitFits, Contract.Valid;
    var nodes := Lookup(g.nodes);
    UnitExactly(node.output);
    if forall p :: p in node.inputs ==> p in nodes {
      StageExactly(node, nodes);
      forall p | p in Parents(node, nodes) ensures exists k :: k in node.inputs && nodes[k] == p {
        var i :| 0 <= i < |node.inputs| && nodes[node.inputs[i]] == p;
      }
      forall k | k in node.inputs ensures nodes[k] in Parents(node, nodes) {
        var i :| 0 <= i < |node.inputs| && node.inputs[i] == k;
        assert Parents(node, nodes)[i] == nodes[k];
      }
    }
  }

  lemma FaultyExactly(nodes: Nodes)
    requires forall k :: k in nodes ==> LocalOk(nodes[k]) && forall p :: p in nodes[k].inputs ==> p in nodes
    ensures Faulty(nodes) <==> HasCycle(nodes)
  {
    hide HasCycle, LocalOk;
  }

  lemma FaultyKnown(nodes: Nodes)
    requires !Faulty(nodes)
    ensures !HasCycle(nodes) && forall k :: k in nodes ==> LocalOk(nodes[k]) && forall p :: p in nodes[k].inputs ==> p in nodes
  {
    hide HasCycle, LocalOk;
    forall k, p | k in nodes && p in nodes[k].inputs ensures p in nodes { assert Edge(nodes, k, p); }
  }

  /** Accepted are exactly the graphs with a valid protocol, without cycles, whose endpoints are there, whose chosen
      estimators are used, whose nodes all compose, and whose fundamental output no market output or blend has touched. */
  lemma AcceptedExactly(g: Graph)
    ensures Accepts(g) <==>
      && ProtocolOk(g) && EndpointsOk(g) && Chosen(g, g.primary) && Chosen(g, g.tune)
      && !HasCycle(Lookup(g.nodes)) && (forall node :: node in g.nodes ==> NodeOk(g, node)) && Untouched(g)
  {
    hide Lookup, EndpointsOk, Chosen, HasCycle, NodeOk, Untouched, Faulty, EstimatorName, Used, StageOk, LocalOk, NoRelabel, Tainted,
      FundamentalKey, UniqueIds;
    UniqueExactly(g.nodes);
    if UniqueIds(g.nodes) {
      EndpointsExactly(g);
      ChosenExactly(g, g.primary);
      ChosenExactly(g, g.tune);
      NodesExactly(g);
      UntouchedExactly(g);
      var nodes := Lookup(g.nodes);
      if !Faulty(nodes) { FaultyKnown(nodes); }
      if forall k :: k in nodes ==> LocalOk(nodes[k]) && forall p :: p in nodes[k].inputs ==> p in nodes { FaultyExactly(nodes); }
    }
  }
}
