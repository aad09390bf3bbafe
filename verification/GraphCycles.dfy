/**
 * The dependency check of the module graph editor (web/module_graph_litegraph.js,
 * validation): remove every module whose dependencies are gone, layer by layer.
 */
module GraphCycles {
  import opened Options
  import opened Collections

  datatype NodeId = NodeId(number: int)

  datatype Link = Link(origin: NodeId, target: NodeId)

  /** For every module node, the module nodes it takes inputs from. */
  type Dependencies = map<NodeId, set<NodeId>>

  predicate Links(links: seq<Option<Link>>, modules: set<NodeId>, origin: NodeId, target: NodeId) {
    origin in modules && target in modules && Some(Link(origin, target)) in links
  }

  /** A link counts when both ends are module nodes; deleted links are null. */
  method DependenciesOf(modules: set<NodeId>, links: seq<Option<Link>>) returns (g: Dependencies)
    ensures g.Keys == modules && Closed(g)
    ensures forall target, origin | target in g :: origin in g[target] <==> Links(links, modules, origin, target)
  {
    g := map n | n in modules :: {};
    for i := 0 to |links|
      invariant g.Keys == modules
      invariant forall target, origin | target in g :: origin in g[target] <==> Links(links[..i], modules, origin, target)
    {
      assert links[..i + 1] == links[..i] + [links[i]];
      if links[i].Some? && links[i].value.origin in modules && links[i].value.target in modules {
        var link := links[i].value;
        g := g[link.target := g[link.target] + {link.origin}];
      }
    }
    assert links[..|links|] == links;
  }

  predicate Closed(g: Dependencies) {
    forall n | n in g :: g[n] <= g.Keys
  }

  predicate Depends(g: Dependencies, a: NodeId, b: NodeId) {
    a in g && b in g[a]
  }

  /** A walk along dependencies. */
  predicate Walk(g: Dependencies, p: seq<NodeId>) {
    forall i | 0 <= i < |p| - 1 :: Depends(g, p[i], p[i + 1])
  }

  predicate Cycle(g: Dependencies, p: seq<NodeId>) {
    |p| >= 2 && p[0] == Last(p) && Walk(g, p)
  }

  /** The node leads into a cycle: a walk from it whose last part is one. */
  ghost predicate LeadsToCycle(g: Dependencies, n: NodeId) {
    exists p: seq<NodeId>, k: nat :: k < |p| && p[0] == n && Walk(g, p) && Cycle(g, p[k..])
  }

  /** Every node once, each after everything it depends on. */
  ghost predicate Topological(g: Dependencies, order: seq<NodeId>) {
    && Distinct(order) && (forall n :: n in order <==> n in g)
    && forall i, d | 0 <= i < |order| && Depends(g, order[i], d) :: d in order[..i]
  }

  function Ready(g: Dependencies, remaining: set<NodeId>): set<NodeId>
    requires remaining <= g.Keys
  {
    set n | n in remaining && g[n] !! remaining
  }

  method Listed(s: set<NodeId>) returns (xs: seq<NodeId>)
    ensures Distinct(xs) && forall n :: n in xs <==> n in s
  {
    xs := [];
    var rest := s;
    while rest != {}
      invariant rest <= s && Distinct(xs) && forall n :: n in xs <==> n in s && n !in rest
      decreases |rest|
    {
      var n := PickOne(rest);
      xs := xs + [n];
      rest := rest - {n};
    }
  }

  /** What is removed so far is in order. */
  ghost predicate OrderedSoFar(g: Dependencies, order: seq<NodeId>, remaining: set<NodeId>) {
    && remaining <= g.Keys && Distinct(order) && (forall n :: n in order <==> n in g && n !in remaining)
    && forall i, d | 0 <= i < |order| && Depends(g, order[i], d) :: d in order[..i]
  }

  lemma LayerExtends(g: Dependencies, order: seq<NodeId>, remaining: set<NodeId>, layer: seq<NodeId>)
    requires Closed(g) && OrderedSoFar(g, order, remaining)
    requires Distinct(layer) && forall n :: n in layer <==> n in Ready(g, remaining)
    ensures OrderedSoFar(g, order + layer, remaining - Ready(g, remaining))
  {
    var longer := order + layer;
    assert forall n | n in order :: n !in layer;
    forall i, j | 0 <= i < j < |longer| ensures longer[i] != longer[j] {
      if i < |order| <= j {
        assert longer[i] in order && longer[j] in layer;
      }
    }
    forall i, d | 0 <= i < |longer| && Depends(g, longer[i], d) ensures d in longer[..i] {
      if i < |order| {
        assert longer[..i] == order[..i];
      } else {
        assert longer[i] in layer && d !in remaining;
        assert d in order;
        assert longer[..i] == order + layer[..i - |order|];
      }
    }
  }

  lemma CycleIsInGraph(g: Dependencies, p: seq<NodeId>)
    requires Cycle(g, p)
    ensures forall i | 0 <= i < |p| :: p[i] in g
  {
    assert Depends(g, p[0], p[1]);
    forall i | 0 <= i < |p| ensures p[i] in g {
      if i < |p| - 1 {
        assert Depends(g, p[i], p[i + 1]);
      }
    }
  }

  /** No cycle loses a node to a layer. */
  lemma CycleStays(g: Dependencies, remaining: set<NodeId>, p: seq<NodeId>)
    requires remaining <= g.Keys && Cycle(g, p) && forall i | 0 <= i < |p| :: p[i] in remaining
    ensures forall i | 0 <= i < |p| :: p[i] in remaining - Ready(g, remaining)
  {
    forall i | 0 <= i < |p| ensures p[i] !in Ready(g, remaining) {
      if i < |p| - 1 {
        assert Depends(g, p[i], p[i + 1]);
      } else {
        assert Depends(g, p[0], p[1]);
      }
    }
  }

  /** Where nothing is ready, following dependencies from any node closes a cycle. */
  lemma {:induction false} StuckLeadsToCycle(g: Dependencies, stuck: set<NodeId>, path: seq<NodeId>)
    requires stuck <= g.Keys && Ready(g, stuck) == {}
    requires path != [] && Distinct(path) && Walk(g, path) && forall n | n in path :: n in stuck
    ensures LeadsToCycle(g, path[0])
    decreases |stuck| - |path|
  {
    DistinctFits(path, stuck);
    var last := Last(path);
    assert last in stuck && last !in Ready(g, stuck);
    var d :| d in g[last] && d in stuck;
    var longer := path + [d];
    assert Walk(g, longer);
    if d in path {
      var k :| 0 <= k < |path| && path[k] == d;
      var loop := longer[k..];
      assert Walk(g, loop) by {
        forall i | 0 <= i < |loop| - 1 ensures Depends(g, loop[i], loop[i + 1]) {
          assert Depends(g, longer[k + i], longer[k + i + 1]);
        }
      }
      assert Cycle(g, longer[k..]);
    } else {
      DistinctFits(longer, stuck);
      StuckLeadsToCycle(g, stuck, longer);
    }
  }

  /**
   * The elimination loop ends, reports a cycle exactly when there is one, names a node
   * that leads into it, and otherwise has removed the modules in topological order.
   */
  method CheckOrder(g: Dependencies) returns (reported: Option<NodeId>, order: seq<NodeId>)
    requires Closed(g)
    ensures reported.Some? <==> exists p: seq<NodeId> :: Cycle(g, p)
    ensures reported.Some? ==> LeadsToCycle(g, reported.value)
    ensures reported.None? ==> Topological(g, order)
  {
    var remaining := g.Keys;
    order := [];
    forall p: seq<NodeId> | Cycle(g, p) ensures forall i | 0 <= i < |p| :: p[i] in remaining {
      CycleIsInGraph(g, p);
    }
    while remaining != {}
      invariant OrderedSoFar(g, order, remaining)
      invariant forall p: seq<NodeId> | Cycle(g, p) :: forall i | 0 <= i < |p| :: p[i] in remaining
      decreases remaining
    {
      var ready := Ready(g, remaining);
      if ready == {} {
        var n := PickOne(remaining);
        StuckLeadsToCycle(g, remaining, [n]);
        reported := Some(n);
        return;
      }
      var layer := Listed(ready);
      LayerExtends(g, order, remaining, layer);
      forall p: seq<NodeId> | Cycle(g, p) ensures forall i | 0 <= i < |p| :: p[i] in remaining - ready {
        CycleStays(g, remaining, p);
      }
      order := order + layer;
      remaining := remaining - ready;
    }
    reported := None;
    forall p: seq<NodeId> ensures !Cycle(g, p) {
      assert |p| >= 2 ==> p[0] !in remaining;
    }
  }
}
