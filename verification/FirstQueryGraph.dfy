/** The graph on which the first query goes wrong exists. */
module FirstQueryGraph {
  import opened ValueFlowGraph
  import opened PerVariableCache
  import opened FirstQuery

  function FirstQueryKind(n: NodeID): Kind {
    match n case 0 => Gep(false) case 2 => Addr(100) case 3 => Addr(101) case _ => Copy
  }

  function FirstQueryLhs(n: NodeID): NodeID {
    match n case 0 => 14 case 1 => 13 case 2 => 10 case 3 => 15 case 4 => 12 case _ => 11
  }

  function FirstQueryDef(v: NodeID): NodeID {
    match v case 10 => 2 case 11 => 5 case 12 => 4 case 13 => 1 case 14 => 0 case _ => 3
  }

  function FirstQueryIn(n: NodeID): seq<Edge> {
    match n
    case 0 => [Direct(5, 0)]
    case 1 => [Direct(0, 1), Direct(2, 1), Direct(4, 1)]
    case 4 => [Direct(6, 4)]
    case 5 => [Direct(2, 5), Direct(3, 5)]
    case 6 => [Direct(5, 6)]
    case _ => []
  }

  function FirstQueryOut(n: NodeID): seq<Edge> {
    match n
    case 0 => [Direct(0, 1)]
    case 2 => [Direct(2, 1), Direct(2, 5)]
    case 3 => [Direct(3, 5)]
    case 4 => [Direct(4, 1)]
    case 5 => [Direct(5, 0), Direct(5, 6)]
    case 6 => [Direct(6, 4)]
    case _ => []
  }

  lemma FirstQueryInEdges()
    ensures InEdgesOk(SEVEN, FirstQueryIn, FirstQueryOut)
  {
    forall n, e | n in SEVEN && e in FirstQueryIn(n) ensures IsEdge(e) && e.dst == n {
    }
    forall e | IsEdge(e) ensures e.Direct? && e.src in SEVEN && e in FirstQueryOut(e.src) {
      EdgeIsListed(e);
    }
  }

  lemma FirstQueryOutEdges()
    ensures OutEdgesOk(SEVEN, FirstQueryIn, FirstQueryOut)
  {
    forall n, e | n in SEVEN && e in FirstQueryOut(n) ensures IsEdge(e) && e.src == n {
    }
    forall e | IsEdge(e) ensures e.Direct? && e.dst in SEVEN && e in FirstQueryIn(e.dst) {
      EdgeIsListed(e);
    }
  }

  predicate IsEdge(e: Edge) {
    e.Direct? && (e.src, e.dst) in {(0, 1), (2, 1), (4, 1), (2, 5), (3, 5), (5, 0), (5, 6), (6, 4)}
  }

  lemma EdgeIsListed(e: Edge)
    requires IsEdge(e)
    ensures e.src in SEVEN && e.dst in SEVEN && e in FirstQueryOut(e.src) && e in FirstQueryIn(e.dst)
  {
  }

  function FieldOf(n: NodeID, o: NodeID): NodeID {
    if o == 100 then 200 else 201
  }

  function FirstQueryGraph(): SVFG {
    SimpleGraph(SEVEN, {100, 101, 200, 201}, FirstQueryKind, FieldOf, FirstQueryLhs, FirstQueryDef, FirstQueryIn,
                FirstQueryOut)
  }

  lemma FirstQueryExists() returns (g: SVFG)
    ensures IsFirstQuery(g) && g.WellFormed() && g.RelaysOk()
  {
    g := FirstQueryGraph();
    FirstQueryInEdges();
    FirstQueryOutEdges();
    SimpleGraphIsWellFormed(SEVEN, {100, 101, 200, 201}, FirstQueryKind, FieldOf, FirstQueryLhs, FirstQueryDef,
                            FirstQueryIn, FirstQueryOut);
    IsThatGraph();
    FirstQueryRelay(g);
  }

  lemma IsThatGraph()
    ensures IsFirstQuery(FirstQueryGraph())
    ensures var g := FirstQueryGraph(); g.def(10) == 2 && g.def(12) == 4 && g.def(14) == 0 && g.def(15) == 3
  {
  }

  lemma FirstQueryRelay(g: SVFG)
    requires IsFirstQuery(g) && g.def(10) == 2 && g.def(12) == 4 && g.def(14) == 0 && g.def(15) == 3
    ensures g.RelaysOk()
  {
    assert !g.IsRelay(0) && !g.IsRelay(1) && !g.IsRelay(2) && !g.IsRelay(3) && !g.IsRelay(4) && !g.IsRelay(5);
  }
}
