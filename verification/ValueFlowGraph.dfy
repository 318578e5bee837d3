/** The sparse value-flow graph, the points-to equations that the demand-driven solver
    answers queries about, and the least solution of those equations. */
module ValueFlowGraph {

  // Variables and abstract objects share one identifier space, as do graph nodes.
  type NodeID = nat

  // A query item: the points-to set of `cur` as seen at graph node `loc`.
  datatype Item = Item(cur: NodeID, loc: NodeID)

  datatype Edge =
    | Direct(src: NodeID, dst: NodeID)
    | Indirect(src: NodeID, dst: NodeID, guard: set<NodeID>)

  // Copy stands for every node that only forwards along direct edges: copies, phis,
  // actual and formal parameters and returns, and the null pointer.
  datatype Kind =
    | Addr(base: NodeID)
    | Copy
    | Gep(variantField: bool)
    | Load(ptr: NodeID, isPointer: bool)
    | Store(ptr: NodeID, val: NodeID, isPointer: bool)
    | MR

  // A candidate solution: a points-to set for every item.
  type PtsMap = map<Item, set<NodeID>>

  function At(x: PtsMap, d: Item): set<NodeID> {
    if d in x then x[d] else {}
  }

  function Union(x: PtsMap, items: set<Item>): set<NodeID> {
    set d, o | d in items && o in At(x, d) :: o
  }

  ghost predicate Below(x: PtsMap, y: PtsMap) {
    forall d :: At(x, d) <= At(y, d)
  }

  datatype SVFG = SVFG(
    nodes: set<NodeID>,
    objs: set<NodeID>,
    items: set<Item>,                    // every item the solver can create
    kind: NodeID -> Kind,
    lhs: NodeID -> NodeID,               // the variable of a top-level node
    def: NodeID -> NodeID,               // the node that defines a variable
    inEdges: NodeID -> seq<Edge>,
    outEdges: NodeID -> seq<Edge>,
    funPtrs: NodeID -> seq<NodeID>,      // function pointers to resolve before a node is handled
    fieldInsensitive: set<NodeID>,
    fiObj: NodeID -> NodeID,
    fieldObj: (NodeID, NodeID) -> NodeID, // (gep node, base object) to field object
    blackHoleOrConstant: set<NodeID>,
    constantObjs: set<NodeID>,
    heapObjs: set<NodeID>,
    arrayObjs: set<NodeID>,
    recursiveLocals: set<NodeID>)
  {
    predicate IsTopLevel(n: NodeID) {
      !kind(n).Store? && !kind(n).MR?
    }

    function DefItem(v: NodeID): Item {
      Item(v, def(v))
    }

    ghost predicate WellFormed() {
      && (forall d {:trigger IsItem(d)} :: d in items <==> IsItem(d))
      && (forall n, e | n in nodes && e in inEdges(n) ::
            e.dst == n && e.src in nodes && e in outEdges(e.src) && (e.Direct? <==> IsTopLevel(e.src)))
      && (forall n, e | n in nodes && e in outEdges(n) :: e.src == n && e.dst in nodes && e in inEdges(e.dst))
      && (forall n {:trigger OperandsOk(n)} | n in nodes :: OperandsOk(n))
      && (forall n, o {:trigger GepTarget(n, o)} | n in nodes && kind(n).Gep? && o in objs :: GepTarget(n, o) in objs)
    }

    // A top-level node with a variable that another node defines: the actual parameter of a
    // call, or the formal return of a function.
    predicate IsRelay(n: NodeID) {
      IsTopLevel(n) && def(lhs(n)) != n
    }

    // A relay copies its variable from the definition, if there is one, and nothing else.
    ghost predicate RelaysOk() {
      forall n | n in nodes && IsRelay(n) ::
        kind(n).Copy? && inEdges(n) == if IsDefined(lhs(n)) then [Direct(def(lhs(n)), n)] else []
    }

    // The operands of a load or store have definitions with direct edges to it, function
    // pointers are defined, and an address node yields an object.
    ghost predicate OperandsOk(n: NodeID) {
      && (forall v | v in funPtrs(n) :: IsDefined(v))
      && match kind(n)
         case Addr(base) => AddrTarget(base) in objs
         case Load(ptr, _) => HasDirect(ptr, n)
         case Store(ptr, val, _) => HasDirect(ptr, n) && HasDirect(val, n)
         case _ => true
    }

    // Variable v has a top-level definition.
    predicate IsDefined(v: NodeID) {
      def(v) in nodes && IsTopLevel(def(v)) && lhs(def(v)) == v
    }

    // Variable v is defined by a node with a direct edge to n.
    ghost predicate HasDirect(v: NodeID, n: NodeID) {
      IsDefined(v) && Direct(def(v), n) in inEdges(n)
    }

    // An item the solver can create: a top-level node with the variable it defines, or a
    // store or memory-region node with any object.
    predicate IsItem(d: Item) {
      d.loc in nodes && if IsTopLevel(d.loc) then d.cur == lhs(d.loc) else d.cur in objs
    }

    function AddrTarget(base: NodeID): NodeID {
      if base in fieldInsensitive then fiObj(base) else base
    }

    function GepTarget(n: NodeID, o: NodeID): NodeID {
      if o in blackHoleOrConstant then o
      else if kind(n).Gep? && kind(n).variantField then fiObj(o)
      else fieldObj(n, o)
    }

    predicate IsStrongUpdate(pts: set<NodeID>) {
      |pts| == 1 &&
      forall o | o in pts ::
        o !in heapObjs && o !in arrayObjs && o !in fieldInsensitive && o !in recursiveLocals
    }

    // ----- what an item's equation reads -----

    function DirectSrcs(n: NodeID): set<Item> {
      set e | e in inEdges(n) && e.Direct? :: Item(lhs(e.src), e.src)
    }

    function IndirectSrcs(o: NodeID, n: NodeID): set<Item> {
      if o in constantObjs then {}
      else set e | e in inEdges(n) && e.Indirect? && o in e.guard :: Item(o, e.src)
    }

    function LoadSrcs(n: NodeID, pts: set<NodeID>): set<Item> {
      set o, s | o in pts && s in IndirectSrcs(o, n) :: s
    }

    // A store passes the incoming contents of object o through unless it definitely
    // overwrites o: some target differs from o, or o is a target but not strongly updated.
    predicate PassesThrough(o: NodeID, pts: set<NodeID>) {
      exists p | p in pts :: p != o || !IsStrongUpdate(pts)
    }

    function StoreSrcs(d: Item, pts: set<NodeID>): set<Item>
      requires kind(d.loc).Store?
    {
      (if d.cur in pts then {DefItem(kind(d.loc).val)} else {}) +
      (if PassesThrough(d.cur, pts) then IndirectSrcs(d.cur, d.loc) else {})
    }

    // The items whose sets are united in the equation of d.
    function Srcs(d: Item, x: PtsMap): set<Item> {
      match kind(d.loc)
      case Addr(_) => {}
      case Copy => DirectSrcs(d.loc)
      case Gep(_) => DirectSrcs(d.loc)
      case Load(p, isPointer) => if isPointer then LoadSrcs(d.loc, At(x, DefItem(p))) else {}
      case Store(p, _, isPointer) => if isPointer then StoreSrcs(d, At(x, DefItem(p))) else {}
      case MR => IndirectSrcs(d.cur, d.loc)
    }

    // Everything the equation of d looks at under x: the united items and, for loads and
    // stores, the pointer operand that selects them.
    function Reads(d: Item, x: PtsMap): set<Item> {
      Srcs(d, x) +
      match kind(d.loc)
      case Load(p, true) => {DefItem(p)}
      case Store(p, _, true) => {DefItem(p)}
      case _ => {}
    }

    // The equation of d: the set it should have when the other items have the sets of x.
    function Flow(d: Item, x: PtsMap): set<NodeID> {
      match kind(d.loc)
      case Addr(base) => {AddrTarget(base)}
      case Gep(_) => set o | o in Union(x, Srcs(d, x)) :: GepTarget(d.loc, o)
      case _ => Union(x, Srcs(d, x))
    }

    // The items the equation of d looks at under some assignment.
    predicate MayRead(d: Item, e: Item) {
      match kind(d.loc)
      case Addr(_) => false
      case Copy => e in DirectSrcs(d.loc)
      case Gep(_) => e in DirectSrcs(d.loc)
      case Load(p, isPointer) => isPointer && (e == DefItem(p) || e in IndirectSrcs(e.cur, d.loc))
      case Store(p, val, isPointer) =>
        isPointer && (e == DefItem(p) || e == DefItem(val) || e in IndirectSrcs(d.cur, d.loc))
      case MR => e in IndirectSrcs(d.cur, d.loc)
    }

    // Evaluating d may lead on to e: its equation may read e, or e is a function pointer to
    // resolve first.
    predicate Calls(d: Item, e: Item) {
      MayRead(d, e) || exists v | v in funPtrs(d.loc) :: e == DefItem(v)
    }

    ghost predicate IsTrace(p: seq<Item>) {
      p != [] && forall j, k {:trigger p[j], p[k]} | 0 <= j && k == j + 1 < |p| :: Calls(p[j], p[k])
    }

    // The items a query for d can visit.
    ghost function Scope(d: Item): set<Item> {
      set x | x in items && exists p :: IsTrace(p) && p[0] == d && p[|p| - 1] == x
    }

    ghost predicate IsScope(scope: set<Item>) {
      scope <= items && forall x, y | x in scope && Calls(x, y) && y in items :: y in scope
    }

    // x only forwards along direct edges, one of which comes from the relay e.
    predicate ReadsRelay(x: Item, e: Item) {
      (kind(x.loc).Copy? || kind(x.loc).Gep?) && e in DirectSrcs(x.loc) && IsRelay(e.loc)
    }

    // x reads a relay whose variable is defined at an item that is not yet done.
    predicate AwaitsRelay(x: Item, done: set<Item>) {
      exists e | e in DirectSrcs(x.loc) :: ReadsRelay(x, e) && IsDefined(e.cur) && DefItem(e.cur) !in done
    }

    // The solver re-evaluates d when e grows: e's node has an edge to d's node and, along
    // an indirect edge into anything but a load, both items track the same object.
    predicate DependsOn(d: Item, e: Item) {
      exists ed | ed in outEdges(e.loc) :: ed.dst == d.loc && Triggers(ed, d, e)
    }

    predicate Triggers(ed: Edge, d: Item, e: Item) {
      ed.Direct? || kind(ed.dst).Load? || d.cur == e.cur
    }

    // ----- solutions -----

    // y satisfies every equation.
    ghost predicate IsClosed(y: PtsMap) {
      forall d {:trigger Flow(d, y)} | d in items :: Flow(d, y) <= At(y, d)
    }

    // y satisfies every equation and contains the seeds.
    ghost predicate IsPreFix(seeds: PtsMap, y: PtsMap) {
      IsClosed(y) && Below(seeds, y)
    }

    // l is the least assignment that satisfies every equation and contains the seeds.
    ghost predicate IsLeast(seeds: PtsMap, l: PtsMap) {
      IsPreFix(seeds, l) && forall y {:trigger IsPreFix(seeds, y)} | IsPreFix(seeds, y) :: Below(l, y)
    }

    // What all pre-fixpoints agree on.
    ghost function Meet(seeds: PtsMap): PtsMap {
      map d | d in items :: set o | o in objs && forall y: PtsMap | IsPreFix(seeds, y) :: o in At(y, d)
    }
  }

  const EMPTY_GRAPH := SVFG({}, {}, {}, n => Copy, n => n, v => v, n => [], n => [], n => [],
                            {}, o => o, (n, o) => o, {}, {}, {}, {}, {})

  type Graph = g: SVFG | g.WellFormed() ghost witness EMPTY_GRAPH

  lemma UnionMonotone(x: PtsMap, y: PtsMap, s: set<Item>, t: set<Item>)
    requires Below(x, y) && s <= t
    ensures Union(x, s) <= Union(y, t)
  {
  }

  // A store whose target set grows from empty to a strongly updated singleton to a larger
  // set only ever reads more.
  lemma StoreSrcsMonotone(g: SVFG, d: Item, p: set<NodeID>, q: set<NodeID>)
    requires p <= q && g.kind(d.loc).Store?
    ensures g.StoreSrcs(d, p) <= g.StoreSrcs(d, q)
  {
    if g.PassesThrough(d.cur, p) {
      var w :| w in p && (w != d.cur || !g.IsStrongUpdate(p));
      if forall v | v in q :: v == d.cur {
        assert p == q;
      }
    }
  }

  // Growing the points-to sets never removes an item from an equation's reads, strong
  // updates included.
  lemma SrcsMonotone(g: SVFG, d: Item, x: PtsMap, y: PtsMap)
    requires Below(x, y)
    ensures g.Srcs(d, x) <= g.Srcs(d, y)
    ensures g.Reads(d, x) <= g.Reads(d, y)
  {
    if g.kind(d.loc).Store? {
      var target := g.DefItem(g.kind(d.loc).ptr);
      StoreSrcsMonotone(g, d, At(x, target), At(y, target));
    }
  }

  lemma FlowMonotone(g: SVFG, d: Item, x: PtsMap, y: PtsMap)
    requires Below(x, y)
    ensures g.Flow(d, x) <= g.Flow(d, y)
  {
    SrcsMonotone(g, d, x, y);
    UnionMonotone(x, y, g.Srcs(d, x), g.Srcs(d, y));
  }

  // An equation's value and its reads are determined by the sets of the items it reads.
  lemma ReadsDetermineFlow(g: SVFG, d: Item, x: PtsMap, y: PtsMap)
    requires forall e | e in g.Reads(d, x) :: At(x, e) == At(y, e)
    ensures g.Reads(d, x) == g.Reads(d, y) && g.Srcs(d, x) == g.Srcs(d, y)
    ensures g.Flow(d, x) == g.Flow(d, y)
  {
    assert g.Srcs(d, x) == g.Srcs(d, y);
    assert Union(x, g.Srcs(d, x)) == Union(y, g.Srcs(d, y));
  }

  lemma DirectSrcIsItem(g: SVFG, n: NodeID, e: Edge)
    requires g.WellFormed() && n in g.nodes && e in g.inEdges(n) && e.Direct?
    ensures Item(g.lhs(e.src), e.src) in g.items && g.IsTopLevel(e.src)
  {
    assert g.IsItem(Item(g.lhs(e.src), e.src));
  }

  lemma IndirectSrcIsItem(g: SVFG, o: NodeID, n: NodeID, e: Edge)
    requires g.WellFormed() && n in g.nodes && e in g.inEdges(n) && e.Indirect? && o in g.objs
    ensures Item(o, e.src) in g.items && !g.IsTopLevel(e.src)
  {
    assert g.IsItem(Item(o, e.src));
  }

  // The variables a node names have items.
  lemma DefinedIsItem(g: SVFG, n: NodeID, v: NodeID)
    requires g.WellFormed() && n in g.nodes
    requires match g.kind(n)
             case Load(ptr, _) => v == ptr || v in g.funPtrs(n)
             case Store(ptr, val, _) => v == ptr || v == val || v in g.funPtrs(n)
             case _ => v in g.funPtrs(n)
    ensures g.DefItem(v) in g.items && g.IsTopLevel(g.def(v))
  {
    assert g.OperandsOk(n) && g.IsItem(g.DefItem(v));
  }

  // Every item an equation reads is one it may read, and one the solver re-evaluates the
  // equation for.
  lemma ReadsAreDependencies(g: SVFG, d: Item, x: PtsMap, e: Item)
    requires g.WellFormed() && d in g.items && e in g.Reads(d, x)
    ensures g.MayRead(d, e) && g.DependsOn(d, e)
  {
    MayReadIsDependency(g, d, e);
  }

  lemma MayReadIsDependency(g: SVFG, d: Item, e: Item)
    requires g.WellFormed() && d in g.items && g.MayRead(d, e)
    ensures g.DependsOn(d, e)
  {
    assert g.IsItem(d) && g.OperandsOk(d.loc);
    if exists ed :: ed in g.inEdges(d.loc) && ed.src == e.loc && ed.Direct? {
      var ed :| ed in g.inEdges(d.loc) && ed.src == e.loc && ed.Direct?;
      assert ed in g.outEdges(e.loc);
    } else {
      var ed :| ed in g.inEdges(d.loc) && ed.Indirect? && ed.src == e.loc && g.Triggers(ed, d, e);
      assert ed in g.outEdges(e.loc);
    }
  }

  lemma ScopeIsClosed(g: SVFG, d: Item)
    requires d in g.items
    ensures g.IsScope(g.Scope(d)) && d in g.Scope(d)
  {
    assert g.IsTrace([d]);
    forall x, y | x in g.Scope(d) && g.Calls(x, y) && y in g.items ensures y in g.Scope(d) {
      var p :| g.IsTrace(p) && p[0] == d && p[|p| - 1] == x;
      assert g.IsTrace(p + [y]);
    }
  }

  // A query stays in any set of items that contains its own and all they lead on to.
  lemma ScopeStaysIn(g: SVFG, d: Item, closed: set<Item>)
    requires d in closed && forall x, y | x in closed && g.Calls(x, y) :: y in closed
    ensures g.Scope(d) <= closed
  {
    forall x | x in g.Scope(d) ensures x in closed {
      var p :| g.IsTrace(p) && p[0] == d && p[|p| - 1] == x;
      TraceStaysIn(g, p, closed);
    }
  }

  lemma {:induction false} TraceStaysIn(g: SVFG, p: seq<Item>, closed: set<Item>)
    requires g.IsTrace(p) && p[0] in closed && forall x, y | x in closed && g.Calls(x, y) :: y in closed
    ensures p[|p| - 1] in closed
  {
    if |p| > 1 { TraceStaysIn(g, p[1..], closed); }
  }

  lemma FlowInObjs(g: SVFG, d: Item, x: PtsMap)
    requires g.WellFormed() && d in g.items
    requires forall e :: At(x, e) <= g.objs
    ensures g.Flow(d, x) <= g.objs
  {
    assert g.IsItem(d) && g.OperandsOk(d.loc);
    assert Union(x, g.Srcs(d, x)) <= g.objs;
  }

  ghost predicate SeedsOk(g: SVFG, seeds: PtsMap) {
    seeds.Keys <= g.items && forall d :: At(seeds, d) <= g.objs
  }

  lemma MeetInObjs(g: SVFG, seeds: PtsMap)
    ensures forall d :: At(g.Meet(seeds), d) <= g.objs
  {
  }

  // The equations have a least solution.
  lemma LeastExists(g: SVFG, seeds: PtsMap) returns (l: PtsMap)
    requires g.WellFormed() && SeedsOk(g, seeds)
    ensures g.IsLeast(seeds, l) && forall d :: At(l, d) <= g.objs
  {
    l := g.Meet(seeds);
    forall y: PtsMap | g.IsPreFix(seeds, y) ensures Below(l, y) {
    }
    MeetInObjs(g, seeds);
    forall d | d in g.items ensures g.Flow(d, l) <= At(l, d) && At(seeds, d) <= At(l, d) {
      FlowInObjs(g, d, l);
      forall y: PtsMap | g.IsPreFix(seeds, y) ensures g.Flow(d, l) <= At(y, d) {
        assert Below(l, y);
        FlowMonotone(g, d, l, y);
      }
    }
  }

  // The least pre-fixpoint solves the equations: nothing in it is unjustified.
  lemma LeastSolvesEquations(g: SVFG, seeds: PtsMap, l: PtsMap, d: Item)
    requires g.WellFormed() && SeedsOk(g, seeds) && g.IsLeast(seeds, l) && d in g.items
    ensures At(l, d) == g.Flow(d, l) + At(seeds, d)
  {
    var y: PtsMap := map e | e in g.items :: g.Flow(e, l) + At(seeds, e);
    assert Below(y, l);
    forall e | e in g.items ensures g.Flow(e, y) <= At(y, e) {
      FlowMonotone(g, e, y, l);
    }
    assert g.IsPreFix(seeds, y);
    assert At(y, d) == g.Flow(d, l) + At(seeds, d);
  }
}
