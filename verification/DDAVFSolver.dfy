/** The demand-driven value-flow solver in its flow-sensitive instance, with a cached set for
    every top-level item, as in the base class, or for every top-level variable, as in FlowDDA. */
module DDAVFSolver {
  import opened ValueFlowGraph
  import opened DemandDrivenSteps
  import opened QueryOrder

  // What the set of a top-level variable is cached under: its item, or the variable alone.
  datatype CacheKey = OfItem(d: Item) | OfVariable(v: NodeID)

  // What answering queries leaves behind.
  datatype Outcome = Outcome(completed: set<Item>, pts: PtsMap, doubtful: set<Item>, seeds: PtsMap)

  class FlowDDA {
    const g: Graph
    const ander: NodeID -> set<NodeID>   // the pre-analysis, used when the budget runs out
    const byVariable: bool               // one set per variable, or else one per item

    var backwardVisited: set<Item>
    var tlPts: map<CacheKey, set<NodeID>> // cached sets of top-level variables
    var adPts: map<Item, set<NodeID>>    // cached sets of address-taken objects at a node
    var locToDpms: map<NodeID, set<Item>>
    var loadDpm: map<Item, Item>
    var loadCVar: map<Item, NodeID>
    var outOfBudgetQuery: bool
    var outOfBudgetDpms: set<Item>
    var steps: nat
    var maxBudget: nat

    ghost var bound: PtsMap              // an assignment closed under the equations, above every cache
    ghost var seeds: PtsMap              // the sets forced onto out-of-budget items
    ghost var final: set<Item>           // the items completed before the current query
    ghost var scope: set<Item>           // the items the current query can visit
    ghost var exempt: set<Item>          // the items the current query may leave in doubt
    ghost var doubtful: set<Item>        // completed items that may miss growth behind a relay

    constructor (g: Graph, ander: NodeID -> set<NodeID>, byVariable: bool)
      requires AnderInObjs(g, ander) && (byVariable ==> g.RelaysOk())
      ensures this.g == g && this.ander == ander && this.byVariable == byVariable
      ensures Quiescent() && Completed() == {} && seeds == map[] && doubtful == {}
    {
      this.g, this.ander, this.byVariable := g, ander, byVariable;
      backwardVisited, tlPts, adPts, locToDpms := {}, map[], map[], map[];
      loadDpm, loadCVar, outOfBudgetQuery, outOfBudgetDpms := map[], map[], false, {};
      steps, maxBudget, seeds, final, scope, exempt, doubtful := 0, 0, map[], {}, {}, {}, {};
      new;
      ghost var l := LeastExists(g, map[]);
      bound := l;
    }

    // ----- abstract state -----

    function Key(d: Item): CacheKey {
      if byVariable then OfVariable(d.cur) else OfItem(d)
    }

    function Cached(d: Item): set<NodeID>
      reads `tlPts, `adPts
    {
      if g.IsTopLevel(d.loc) then (if Key(d) in tlPts then tlPts[Key(d)] else {})
      else (if d in adPts then adPts[d] else {})
    }

    // d and e have one cached set.
    predicate Share(d: Item, e: Item) {
      d == e || (byVariable && g.IsTopLevel(d.loc) && g.IsTopLevel(e.loc) && d.cur == e.cur)
    }

    // The items that are not told when what a relay carries grows at its definition.
    ghost function Exempt(done: set<Item>): set<Item> {
      if byVariable then Awaiting(g, done) else {}
    }

    ghost function Pts(): PtsMap
      reads `tlPts, `adPts
    {
      map d | d in g.items :: Cached(d)
    }

    function Known(): set<Item>
      reads `locToDpms
    {
      set n, x | n in locToDpms && x in locToDpms[n] :: x
    }

    ghost function Now(): Snap
      reads `tlPts, `adPts, `backwardVisited, `locToDpms, `loadCVar, `outOfBudgetQuery, `exempt
    {
      Snap(Pts(), backwardVisited, Known(), loadCVar.Keys, exempt, outOfBudgetQuery)
    }

    // Bounds on the facts not yet cached and the items not yet marked. They make nested
    // calls terminate: marking an item shrinks `unmarked`, and marks are only cleared
    // after a cache grew, which shrinks `missing`.
    ghost predicate Within(missing: set<Fact>, unmarked: set<Item>)
      reads `tlPts, `adPts, `backwardVisited
    {
      Missing(g, Pts()) <= missing && g.items - backwardVisited <= unmarked
    }

    ghost predicate HasLoad(d: Item)
      reads `loadCVar, `loadDpm
    {
      d in loadCVar && loadCVar[d] == d.cur && d in loadDpm
    }

    // Only items of the graph are visited, and every known item is, except that an item
    // whose mark was just cleared may be known and unmarked.
    ghost predicate MarksOk(cleared: set<Item>)
      reads `backwardVisited, `locToDpms, `outOfBudgetDpms
    {
      && outOfBudgetDpms <= backwardVisited && outOfBudgetDpms !! Known()
      && backwardVisited <= g.items && Known() <= backwardVisited + cleared && cleared <= g.items
      && (forall n, x | n in locToDpms && x in locToDpms[n] :: x.loc == n)
    }

    // Load records name the item's own object, and every known address-taken item has one.
    ghost predicate LoadsOk()
      reads `locToDpms, `loadCVar, `loadDpm
    {
      && (forall d | d in loadCVar :: HasLoad(d))
      && (forall x | x in Known() && !g.IsTopLevel(x.loc) :: HasLoad(x))
    }

    ghost predicate CachesOk()
      reads `tlPts, `adPts, `bound
    {
      IsBound(g, bound) && Below(Pts(), bound)
    }

    // Where an item of a variable is completed, so is the variable's definition.
    ghost predicate DefinitionsFirst(done: set<Item>) {
      forall x | x in done && g.IsTopLevel(x.loc) && g.IsDefined(x.cur) :: g.DefItem(x.cur) in done
    }

    // The query stays in its scope and does not touch what was completed before it.
    ghost predicate ScopeOk()
      reads `backwardVisited, `locToDpms, `final, `scope, `exempt
    {
      && g.IsScope(scope) && Known() <= scope && final == backwardVisited - Known() && exempt == Exempt(final)
      && (byVariable ==> g.RelaysOk() && DefinitionsFirst(final))
    }

    ghost predicate ValidBut(cleared: set<Item>)
      reads `backwardVisited, `locToDpms, `loadCVar, `loadDpm, `tlPts, `adPts, `bound, `outOfBudgetDpms, `final,
            `scope, `exempt
    {
      MarksOk(cleared) && LoadsOk() && CachesOk() && ScopeOk()
    }

    ghost predicate Valid()
      reads `backwardVisited, `locToDpms, `loadCVar, `loadDpm, `tlPts, `adPts, `bound, `outOfBudgetDpms, `final,
            `scope, `exempt
    {
      ValidBut({})
    }

    static ghost predicate AnderInObjs(g: SVFG, ander: NodeID -> set<NodeID>) {
      forall v :: ander(v) <= g.objs
    }

    static ghost function AnderAssignment(g: SVFG, ander: NodeID -> set<NodeID>): PtsMap {
      map d | d in g.items :: ander(d.cur)
    }

    static ghost predicate AnderIsSound(g: SVFG, ander: NodeID -> set<NodeID>) {
      IsBound(g, AnderAssignment(g, ander))
    }

    // The items whose caches later queries may rely on: all visited items, except that a
    // query that ran out of budget completes nothing but the items it forced.
    ghost function Completed(): set<Item>
      reads `backwardVisited, `locToDpms, `outOfBudgetQuery, `outOfBudgetDpms
    {
      if outOfBudgetQuery then backwardVisited - (Known() - outOfBudgetDpms) else backwardVisited
    }

    // The sets forced onto out-of-budget items, which are definitions, are those of the
    // pre-analysis.
    ghost predicate SeedsAreForced()
      reads `seeds, `outOfBudgetDpms
    {
      && seeds.Keys == outOfBudgetDpms && outOfBudgetDpms <= g.items
      && forall d | d in seeds :: seeds[d] == ander(d.cur) && d == g.DefItem(d.cur)
    }

    // The caches of all completed items are exactly the least solution.
    ghost predicate Exact()
      reads `backwardVisited, `locToDpms, `tlPts, `adPts, `bound, `outOfBudgetDpms, `outOfBudgetQuery
    {
      forall x | x in Completed() :: At(Pts(), x) == At(bound, x)
    }

    // The pre-analysis was never used, or it is closed under the equations.
    ghost predicate FallbackIsSound()
      reads `seeds
    {
      seeds == map[] || AnderIsSound(g, ander)
    }

    // The bound is the least solution that contains the seeds, and only forwarding items are
    // in doubt.
    ghost predicate BoundOk()
      reads `seeds, `bound, `outOfBudgetDpms, `doubtful
    {
      && AnderInObjs(g, ander) && (byVariable ==> g.RelaysOk())
      && SeedsAreForced() && g.IsLeast(seeds, bound) && doubtful <= Exempt({})
    }

    // The invariant between queries.
    ghost predicate Quiescent()
      reads `backwardVisited, `locToDpms, `tlPts, `adPts, `seeds, `bound, `outOfBudgetDpms, `outOfBudgetQuery, `doubtful
    {
      && BoundOk() && CachesOk() && Known() <= backwardVisited && outOfBudgetDpms <= backwardVisited
      && Settled(g, seeds, Pts(), Completed(), doubtful)
    }

    // The items a query for v may leave in doubt when the items in done are completed.
    ghost function NewDoubts(v: NodeID, done: set<Item>): set<Item> {
      if byVariable then Unready(g, v, done) else {}
    }

    // ----- visited marks and load records -----

    method MarkbkVisited(d: Item)
      modifies `backwardVisited
      ensures backwardVisited == old(backwardVisited) + {d}
      ensures Now() == old(Now()).(visited := old(backwardVisited) + {d})
    {
      backwardVisited := backwardVisited + {d};
    }

    method ClearbkVisited(d: Item)
      requires d in backwardVisited
      modifies `backwardVisited
      ensures backwardVisited == old(backwardVisited) - {d}
    {
      backwardVisited := backwardVisited - {d};
    }

    method AddDpmToLoc(d: Item)
      modifies `locToDpms
      ensures Known() == old(Known()) + {d} && Now() == old(Now()).(known := old(Known()) + {d})
      ensures forall n, x | n in locToDpms && x in locToDpms[n] ::
                (x == d && n == d.loc) || (n in old(locToDpms) && x in old(locToDpms)[n])
    {
      var at := if d.loc in locToDpms then locToDpms[d.loc] else {};
      locToDpms := locToDpms[d.loc := at + {d}];
      forall x | x in old(Known()) ensures x in Known() {
        var n :| n in old(locToDpms) && x in old(locToDpms)[n];
        assert n in locToDpms && x in locToDpms[n];
      }
      assert d.loc in locToDpms && d in locToDpms[d.loc];
    }

    // Every record made names the item's own object.
    method AddLoadDpmAndCVar(d: Item, load: Item, v: NodeID)
      requires Valid() && v == d.cur
      modifies `loadDpm, `loadCVar
      ensures loadDpm == old(loadDpm)[d := load] && loadCVar == old(loadCVar)[d := v]
      ensures Valid() && HasLoad(d) && Now() == old(Now()).(recorded := old(loadCVar).Keys + {d})
    {
      loadCVar := loadCVar[d := v];
      loadDpm := loadDpm[d := load];
    }

    method TestOutOfBudget(d: Item) returns (out: bool)
      modifies `steps, `outOfBudgetQuery
      ensures old(outOfBudgetQuery) ==> outOfBudgetQuery
      ensures Now() == old(Now()).(exhausted := outOfBudgetQuery)
      ensures out <==> outOfBudgetQuery || d in outOfBudgetDpms
    {
      if outOfBudgetQuery { return true; }
      steps := steps + 1;
      if steps > maxBudget { outOfBudgetQuery := true; }
      out := d in outOfBudgetDpms || outOfBudgetQuery;
    }

    // ----- the solver -----

    method FindPT(d: Item, ghost missing: set<Fact>, ghost unmarked: set<Item>) returns (cpts: set<NodeID>)
      requires ValidBut({d}) && Within(missing, unmarked) && d in scope && (g.IsTopLevel(d.loc) || HasLoad(d))
      modifies `backwardVisited, `tlPts, `adPts, `locToDpms, `loadDpm, `loadCVar, `outOfBudgetQuery, `steps
      ensures Valid() && Within(missing, unmarked) && d in backwardVisited && cpts == At(Pts(), d)
      ensures Preserves(g, old(Now()), Now())
      ensures if d in old(backwardVisited) then outOfBudgetQuery == old(outOfBudgetQuery)
              else d in Known() && (outOfBudgetQuery || Stable(g, d, Now()))
      decreases missing, unmarked, 1
    {
      if d in backwardVisited {
        PreservesReflexive(g, Now());
        return Cached(d);
      }
      ComputePT(d, missing, unmarked);
      cpts := Cached(d);
    }

    method ComputePT(d: Item, ghost missing: set<Fact>, ghost unmarked: set<Item>)
      requires ValidBut({d}) && Within(missing, unmarked) && d in scope && (g.IsTopLevel(d.loc) || HasLoad(d))
      requires d !in backwardVisited
      modifies `backwardVisited, `tlPts, `adPts, `locToDpms, `loadDpm, `loadCVar, `outOfBudgetQuery, `steps
      ensures Valid() && Within(missing, unmarked) && d in Known()
      ensures Preserves(g, old(Now()), Now())
      ensures outOfBudgetQuery || Stable(g, d, Now())
      decreases missing, unmarked, 0
    {
      ghost var s := Now();
      Visit(d);
      EvaluateInBudget(d, missing, unmarked - {d});
      VisitedThenEvaluated(g, d, s, Now());
    }

    method Visit(d: Item)
      requires ValidBut({d}) && d in scope && (g.IsTopLevel(d.loc) || HasLoad(d)) && d !in backwardVisited
      modifies `backwardVisited, `locToDpms
      ensures Valid()
      ensures Now() == Visited(old(Now()), d)
    {
      MarkbkVisited(d);
      AddDpmToLoc(d);
    }

    method EvaluateInBudget(d: Item, ghost missing: set<Fact>, ghost unmarked: set<Item>)
      requires Valid() && Within(missing, unmarked) && d in Known()
      modifies `backwardVisited, `tlPts, `adPts, `locToDpms, `loadDpm, `loadCVar, `outOfBudgetQuery, `steps
      ensures Valid() && Within(missing, unmarked) && Preserves(g, old(Now()), Now())
      ensures outOfBudgetQuery || Stable(g, d, Now())
      decreases missing, unmarked, 14
    {
      ghost var s := Now();
      var out := TestOutOfBudget(d);
      PreservesOutOfBudget(g, s, outOfBudgetQuery);
      if !out {
        Evaluate(d, missing, unmarked);
      }
    }

    // Gather d's set from its equation, then merge it into the cache.
    method Evaluate(d: Item, ghost missing: set<Fact>, ghost unmarked: set<Item>)
      requires Valid() && Within(missing, unmarked) && d in Known() && !outOfBudgetQuery
      modifies `backwardVisited, `tlPts, `adPts, `locToDpms, `loadDpm, `loadCVar, `outOfBudgetQuery, `steps
      ensures Valid() && Within(missing, unmarked) && Preserves(g, old(Now()), Now())
      ensures outOfBudgetQuery || Stable(g, d, Now())
      decreases missing, unmarked, 13
    {
      ghost var s0 := Now();
      var pts := HandleSingleStatement(d, missing, unmarked);
      ghost var s1 := Now();
      FlowMayMerge(d, pts);
      UpdateCachedPointsTo(d, pts, missing, unmarked);
      EvaluatedIsStable(g, d, s0, s1, Now(), pts);
    }

    // ----- one statement -----

    method HandleSingleStatement(d: Item, ghost missing: set<Fact>, ghost unmarked: set<Item>)
      returns (pts: set<NodeID>)
      requires Valid() && Within(missing, unmarked) && d in Known()
      modifies `backwardVisited, `tlPts, `adPts, `locToDpms, `loadDpm, `loadCVar, `outOfBudgetQuery, `steps
      ensures Valid() && Within(missing, unmarked) && Preserves(g, old(Now()), Now())
      ensures Evaluates(g, d, old(Now()), Now(), pts)
      decreases missing, unmarked, 12
    {
      ghost var s := Now();
      assert g.IsItem(d);
      ResolveFunPtr(d, missing, unmarked);
      ghost var t := Now();
      pts := HandleStatement(d, missing, unmarked);
      PreservesTransitive(g, s, t, Now());
      EvaluatesLater(g, d, s, t, Now(), pts);
    }

    // Resolve the function pointers of an indirect call site or of a function's callers.
    method ResolveFunPtr(d: Item, ghost missing: set<Fact>, ghost unmarked: set<Item>)
      requires Valid() && Within(missing, unmarked) && d in scope
      modifies `backwardVisited, `tlPts, `adPts, `locToDpms, `loadDpm, `loadCVar, `outOfBudgetQuery, `steps
      ensures Valid() && Within(missing, unmarked) && Preserves(g, old(Now()), Now())
      decreases missing, unmarked, 4
    {
      ghost var s := Now();
      PreservesReflexive(g, s);
      var funPtrs := g.funPtrs(d.loc);
      for i := 0 to |funPtrs|
        invariant Valid() && Within(missing, unmarked) && Preserves(g, s, Now())
      {
        ghost var t := Now();
        assert g.IsItem(d);
        DefinedIsItem(g, d.loc, funPtrs[i]);
        assert g.Calls(d, g.DefItem(funPtrs[i]));
        var _ := FindPT(g.DefItem(funPtrs[i]), missing, unmarked);
        PreservesTransitive(g, s, t, Now());
      }
    }

    method HandleStatement(d: Item, ghost missing: set<Fact>, ghost unmarked: set<Item>) returns (pts: set<NodeID>)
      requires Valid() && Within(missing, unmarked) && d in scope && (g.IsTopLevel(d.loc) || HasLoad(d))
      modifies `backwardVisited, `tlPts, `adPts, `locToDpms, `loadDpm, `loadCVar, `outOfBudgetQuery, `steps
      ensures Valid() && Within(missing, unmarked) && Preserves(g, old(Now()), Now())
      ensures Evaluates(g, d, old(Now()), Now(), pts)
      decreases missing, unmarked, 11
    {
      ghost var s := Now();
      assert g.IsItem(d);
      PreservesReflexive(g, s);
      NothingToRead(g, d, s);
      pts := {};
      match g.kind(d.loc)
      case Addr(base) =>
        pts := {g.AddrTarget(base)};
      case Copy =>
        pts := BacktraceAlongDirectVF(d, missing, unmarked);
        DirectEvaluates(g, d, s, Now(), pts);
      case Gep(_) =>
        var gepPts := BacktraceAlongDirectVF(d, missing, unmarked);
        pts := set o | o in gepPts :: g.GepTarget(d.loc, o);
        DirectEvaluates(g, d, s, Now(), gepPts);
      case Load(_, isPointer) =>
        if isPointer {
          pts := HandleLoad(d, missing, unmarked);
          GatheredEvaluates(g, d, s, Now(), pts);
        }
      case Store(_, _, isPointer) =>
        if isPointer {
          pts := HandleStore(d, missing, unmarked);
          GatheredEvaluates(g, d, s, Now(), pts);
        }
      case MR =>
        IndirectSrcsInScope(d, d.cur);
        pts := BacktraceAlongIndirectVF({}, d, missing, unmarked);
        IndirectEvaluates(g, d, s, Now(), pts);
    }

    // d is a load, or a store item, that copies a pointer.
    ghost predicate OnLoad(d: Item)
      reads `scope
    {
      d in scope && g.kind(d.loc).Load? && g.kind(d.loc).isPointer
    }

    ghost predicate OnStore(d: Item)
      reads `scope, `loadCVar, `loadDpm
    {
      d in scope && g.kind(d.loc).Store? && g.kind(d.loc).isPointer && HasLoad(d)
    }

    method HandleLoad(d: Item, ghost missing: set<Fact>, ghost unmarked: set<Item>) returns (pts: set<NodeID>)
      requires Valid() && Within(missing, unmarked) && OnLoad(d)
      modifies `backwardVisited, `tlPts, `adPts, `locToDpms, `loadDpm, `loadCVar, `outOfBudgetQuery, `steps
      ensures Valid() && Within(missing, unmarked) && Preserves(g, old(Now()), Now())
      ensures GathersFlow(g, d, old(Now()), Now(), pts)
      decreases missing, unmarked, 8
    {
      ghost var s := Now();
      assert g.IsItem(d);
      var loadpts := StartNewPTComp(g.kind(d.loc).ptr, d, missing, unmarked);
      ghost var t := Now();
      PointerRead(s, t, t, g.DefItem(g.kind(d.loc).ptr), loadpts);
      pts := LoadThroughAll(d, loadpts, missing, unmarked);
      LoadGathersFlow(g, d, s, t, Now(), loadpts, pts);
    }

    method LoadThroughAll(d: Item, loadpts: set<NodeID>, ghost missing: set<Fact>, ghost unmarked: set<Item>)
      returns (pts: set<NodeID>)
      requires Valid() && Within(missing, unmarked) && OnLoad(d) && loadpts <= g.objs
      modifies `backwardVisited, `tlPts, `adPts, `locToDpms, `loadDpm, `loadCVar, `outOfBudgetQuery, `steps
      ensures Valid() && Within(missing, unmarked) && Preserves(g, old(Now()), Now())
      ensures Gathered(old(Now()), Now(), g.LoadSrcs(d.loc, loadpts), {}, pts)
      decreases missing, unmarked, 7
    {
      var order := Ascending(loadpts);
      ghost var s := Now();
      PreservesReflexive(g, s);
      pts := {};
      for i := 0 to |order|
        invariant Valid() && Within(missing, unmarked) && Preserves(g, s, Now())
        invariant Gathered(s, Now(), ObjectsSrcs(g, d.loc, order[..i]), {}, pts)
      {
        ghost var t, mid := Now(), pts;
        pts := TraceObject(pts, d, order[i], missing, unmarked);
        GatheredObject(g, d.loc, s, t, Now(), order, i, mid, pts);
      }
      assert order[..|order|] == order;
      assert ObjectsSrcs(g, d.loc, order) == g.LoadSrcs(d.loc, loadpts);
    }

    method TraceObject(acc: set<NodeID>, d: Item, o: NodeID, ghost missing: set<Fact>,
                       ghost unmarked: set<Item>) returns (pts: set<NodeID>)
      requires Valid() && Within(missing, unmarked) && o in g.objs && (OnLoad(d) || (OnStore(d) && o == d.cur))
      modifies `backwardVisited, `tlPts, `adPts, `locToDpms, `loadDpm, `loadCVar, `outOfBudgetQuery, `steps
      ensures Valid() && Within(missing, unmarked) && Preserves(g, old(Now()), Now())
      ensures Gathered(old(Now()), Now(), g.IndirectSrcs(o, d.loc), acc, pts)
      decreases missing, unmarked, 6
    {
      ghost var s := Now();
      assert g.IsItem(d);
      var x := GetDPImWithOldCond(d, o, d.loc);
      ghost var mid := Now();
      IndirectSrcsInScope(d, o);
      pts := BacktraceAlongIndirectVF(acc, x, missing, unmarked);
      PreservesAfterRecord(g, s, mid, Now());
    }

    method HandleStore(d: Item, ghost missing: set<Fact>, ghost unmarked: set<Item>) returns (pts: set<NodeID>)
      requires Valid() && Within(missing, unmarked) && OnStore(d)
      modifies `backwardVisited, `tlPts, `adPts, `locToDpms, `loadDpm, `loadCVar, `outOfBudgetQuery, `steps
      ensures Valid() && Within(missing, unmarked) && Preserves(g, old(Now()), Now())
      ensures GathersFlow(g, d, old(Now()), Now(), pts)
      decreases missing, unmarked, 10
    {
      ghost var s := Now();
      assert g.IsItem(d);
      var storepts := StartNewPTComp(g.kind(d.loc).ptr, d, missing, unmarked);
      ghost var t := Now();
      pts := StoreToAll(d, storepts, missing, unmarked);
      StoreGathersFlow(g, d, s, t, Now(), storepts, pts);
    }

    method StoreToAll(d: Item, storepts: set<NodeID>, ghost missing: set<Fact>, ghost unmarked: set<Item>)
      returns (pts: set<NodeID>)
      requires Valid() && Within(missing, unmarked) && OnStore(d)
      modifies `backwardVisited, `tlPts, `adPts, `locToDpms, `loadDpm, `loadCVar, `outOfBudgetQuery, `steps
      ensures Valid() && Within(missing, unmarked) && Preserves(g, old(Now()), Now())
      ensures Gathered(old(Now()), Now(), g.StoreSrcs(d, storepts), {}, pts)
      decreases missing, unmarked, 9
    {
      var order := Ascending(storepts);
      ghost var s := Now();
      PreservesReflexive(g, s);
      pts := {};
      AllTargets(g, d, s, storepts, order);
      for i := 0 to |order|
        invariant Valid() && Within(missing, unmarked) && Preserves(g, s, Now())
        invariant Gathered(s, Now(), TargetsSrcs(g, d, storepts, order[..i]), {}, pts)
      {
        ghost var t, mid := Now(), pts;
        pts := StoreTo(pts, d, order[i], storepts, missing, unmarked);
        GatheredTarget(g, d, s, t, Now(), storepts, order, i, mid, pts);
      }
    }

    // One target of a store: the tracked object takes the stored value and, unless it is
    // strongly updated, keeps its incoming contents; any other target passes them through.
    method StoreTo(acc: set<NodeID>, d: Item, o: NodeID, storepts: set<NodeID>, ghost missing: set<Fact>,
                   ghost unmarked: set<Item>) returns (pts: set<NodeID>)
      requires Valid() && Within(missing, unmarked) && OnStore(d)
      modifies `backwardVisited, `tlPts, `adPts, `locToDpms, `loadDpm, `loadCVar, `outOfBudgetQuery, `steps
      ensures Valid() && Within(missing, unmarked) && Preserves(g, old(Now()), Now())
      ensures Gathered(old(Now()), Now(), TargetSrcs(g, d, storepts, o), acc, pts)
      decreases missing, unmarked, 8
    {
      assert g.IsItem(d);
      if o == loadCVar[d] {
        pts := StoreToObject(acc, d, o, g.IsStrongUpdate(storepts), missing, unmarked);
      } else {
        pts := BacktraceAlongIndirectVF(acc, d, missing, unmarked);
      }
    }

    method StoreToObject(acc: set<NodeID>, d: Item, o: NodeID, strong: bool, ghost missing: set<Fact>,
                         ghost unmarked: set<Item>) returns (pts: set<NodeID>)
      requires Valid() && Within(missing, unmarked) && OnStore(d) && o == d.cur
      modifies `backwardVisited, `tlPts, `adPts, `locToDpms, `loadDpm, `loadCVar, `outOfBudgetQuery, `steps
      ensures Valid() && Within(missing, unmarked) && Preserves(g, old(Now()), Now())
      ensures Gathered(old(Now()), Now(),
                       {g.DefItem(g.kind(d.loc).val)} + (if strong then {} else g.IndirectSrcs(o, d.loc)), acc, pts)
      decreases missing, unmarked, 7
    {
      ghost var s := Now();
      assert g.IsItem(d);
      var mid := TraceStored(acc, d, o, missing, unmarked);
      ghost var t := Now();
      if strong {
        pts := mid;
      } else {
        pts := TraceObject(mid, d, o, missing, unmarked);
        GatheredMore(g, s, t, Now(), {g.DefItem(g.kind(d.loc).val)}, g.IndirectSrcs(o, d.loc), acc, mid, pts);
      }
    }

    method TraceStored(acc: set<NodeID>, d: Item, o: NodeID, ghost missing: set<Fact>,
                       ghost unmarked: set<Item>) returns (pts: set<NodeID>)
      requires Valid() && Within(missing, unmarked) && OnStore(d) && o == d.cur
      modifies `backwardVisited, `tlPts, `adPts, `locToDpms, `loadDpm, `loadCVar, `outOfBudgetQuery, `steps
      ensures Valid() && Within(missing, unmarked) && Preserves(g, old(Now()), Now())
      ensures Gathered(old(Now()), Now(), {g.DefItem(g.kind(d.loc).val)}, acc, pts)
      decreases missing, unmarked, 4
    {
      ghost var s := Now();
      assert g.IsItem(d);
      var x := GetDPImWithOldCond(d, o, d.loc);
      ghost var mid := Now();
      pts := BacktraceToStoreSrc(acc, x, missing, unmarked);
      PreservesAfterRecord(g, s, mid, Now());
    }

    // The item for object v at loc, with its load variable recorded at loads and stores.
    method GetDPImWithOldCond(oldDpm: Item, v: NodeID, loc: NodeID) returns (d: Item)
      requires Valid() && (g.kind(loc).Store? ==> HasLoad(oldDpm)) && (g.kind(loc).Store? || g.kind(loc).Load?)
      modifies `loadDpm, `loadCVar
      ensures Valid() && d == Item(v, loc) && HasLoad(d)
      ensures Now() == old(Now()).(recorded := old(loadCVar).Keys + {d})
    {
      d := Item(v, loc);
      if g.kind(loc).Store? {
        AddLoadDpmAndCVar(d, loadDpm[oldDpm], v);
      }
      if g.kind(loc).Load? {
        AddLoadDpmAndCVar(d, oldDpm, v);
      }
    }

    // ----- backward traversal -----

    // Visit the item at the source of `edge` and unite its cached set with acc. Along an
    // indirect edge the load record is handed on.
    method BackwardPropDpm(acc: set<NodeID>, ptr: NodeID, oldDpm: Item, edge: Edge, ghost missing: set<Fact>,
                           ghost unmarked: set<Item>) returns (pts: set<NodeID>)
      requires Valid() && Within(missing, unmarked) && Item(ptr, edge.src) in scope
      requires if edge.Direct? then g.IsTopLevel(edge.src) else HasLoad(oldDpm) && ptr == oldDpm.cur
      modifies `backwardVisited, `tlPts, `adPts, `locToDpms, `loadDpm, `loadCVar, `outOfBudgetQuery, `steps
      ensures Valid() && Within(missing, unmarked) && Preserves(g, old(Now()), Now())
      ensures Gathered(old(Now()), Now(), {Item(ptr, edge.src)}, acc, pts)
      decreases missing, unmarked, 2
    {
      var d := Item(ptr, edge.src);
      ghost var s := Now();
      HandOnLoad(d, oldDpm, edge);
      ghost var mid := Now();
      var cpts := FindPT(d, missing, unmarked);
      PreservesAfterRecord(g, s, mid, Now());
      pts := acc + cpts;
    }

    method HandOnLoad(d: Item, oldDpm: Item, edge: Edge)
      requires Valid() && (edge.Indirect? ==> HasLoad(oldDpm) && d.cur == oldDpm.cur)
      modifies `loadDpm, `loadCVar
      ensures Valid() && (edge.Indirect? ==> HasLoad(d))
      ensures Now() == old(Now()).(recorded := Now().recorded) && old(Now()).recorded <= Now().recorded
    {
      if edge.Indirect? {
        AddLoadDpmAndCVar(d, loadDpm[oldDpm], loadCVar[oldDpm]);
      }
    }

    // Start a computation of the pointer operand of a load or store.
    method StartNewPTComp(ptr: NodeID, d: Item, ghost missing: set<Fact>, ghost unmarked: set<Item>)
      returns (pts: set<NodeID>)
      requires Valid() && Within(missing, unmarked) && (OnLoad(d) || OnStore(d)) && ptr == g.kind(d.loc).ptr
      modifies `backwardVisited, `tlPts, `adPts, `locToDpms, `loadDpm, `loadCVar, `outOfBudgetQuery, `steps
      ensures Valid() && Within(missing, unmarked) && Preserves(g, old(Now()), Now())
      ensures Gathered(old(Now()), Now(), {g.DefItem(ptr)}, {}, pts)
      decreases missing, unmarked, 3
    {
      assert g.IsItem(d);
      DefinedIsItem(g, d.loc, ptr);
      assert g.Calls(d, g.DefItem(ptr));
      pts := BackwardPropDpm({}, ptr, d, Direct(g.def(ptr), d.loc), missing, unmarked);
    }

    method BacktraceToStoreSrc(acc: set<NodeID>, d: Item, ghost missing: set<Fact>,
                               ghost unmarked: set<Item>) returns (pts: set<NodeID>)
      requires Valid() && Within(missing, unmarked) && OnStore(d)
      modifies `backwardVisited, `tlPts, `adPts, `locToDpms, `loadDpm, `loadCVar, `outOfBudgetQuery, `steps
      ensures Valid() && Within(missing, unmarked) && Preserves(g, old(Now()), Now())
      ensures Gathered(old(Now()), Now(), {g.DefItem(g.kind(d.loc).val)}, acc, pts)
      decreases missing, unmarked, 3
    {
      var val := g.kind(d.loc).val;
      assert g.IsItem(d);
      DefinedIsItem(g, d.loc, val);
      assert g.Calls(d, g.DefItem(val));
      pts := BackwardPropDpm(acc, val, d, Direct(g.def(val), d.loc), missing, unmarked);
    }

    method BacktraceAlongDirectVF(d: Item, ghost missing: set<Fact>, ghost unmarked: set<Item>)
      returns (pts: set<NodeID>)
      requires Valid() && Within(missing, unmarked) && d in scope && (g.kind(d.loc).Copy? || g.kind(d.loc).Gep?)
      modifies `backwardVisited, `tlPts, `adPts, `locToDpms, `loadDpm, `loadCVar, `outOfBudgetQuery, `steps
      ensures Valid() && Within(missing, unmarked) && Preserves(g, old(Now()), Now())
      ensures Gathered(old(Now()), Now(), g.DirectSrcs(d.loc), {}, pts)
      decreases missing, unmarked, 4
    {
      ghost var s := Now();
      PreservesReflexive(g, s);
      pts := {};
      var edges := g.inEdges(d.loc);
      for i := 0 to |edges|
        invariant Valid() && Within(missing, unmarked) && Preserves(g, s, Now())
        invariant Gathered(s, Now(), DirectSrcsOf(g, edges[..i]), {}, pts)
      {
        ghost var t, mid := Now(), pts;
        pts := BacktraceDirectEdge(pts, d, edges[i], missing, unmarked);
        GatheredDirectEdge(g, s, t, Now(), edges, i, mid, pts);
      }
      assert edges[..|edges|] == edges;
    }

    method BacktraceDirectEdge(acc: set<NodeID>, d: Item, edge: Edge, ghost missing: set<Fact>,
                               ghost unmarked: set<Item>) returns (pts: set<NodeID>)
      requires Valid() && Within(missing, unmarked) && d in scope && (g.kind(d.loc).Copy? || g.kind(d.loc).Gep?)
      requires edge in g.inEdges(d.loc)
      modifies `backwardVisited, `tlPts, `adPts, `locToDpms, `loadDpm, `loadCVar, `outOfBudgetQuery, `steps
      ensures Valid() && Within(missing, unmarked) && Preserves(g, old(Now()), Now())
      ensures Gathered(old(Now()), Now(), DirectSrcsOf(g, [edge]), acc, pts)
      decreases missing, unmarked, 3
    {
      if edge.Direct? {
        assert g.IsItem(d);
        DirectSrcIsItem(g, d.loc, edge);
        assert g.Calls(d, Item(g.lhs(edge.src), edge.src));
        pts := BackwardPropDpm(acc, g.lhs(edge.src), d, edge, missing, unmarked);
        assert DirectSrcsOf(g, [edge]) == {Item(g.lhs(edge.src), edge.src)};
      } else {
        PreservesReflexive(g, Now());
        pts := acc;
      }
    }

    // The query can visit the items that d's object comes from.
    ghost predicate SrcsInScope(d: Item)
      reads `scope
    {
      d.loc in g.nodes && forall e | e in g.IndirectSrcs(d.cur, d.loc) && e in g.items :: e in scope
    }

    lemma IndirectSrcsInScope(d: Item, o: NodeID)
      requires g.IsScope(scope) && d in scope
      requires match g.kind(d.loc)
               case Load(_, isPointer) => isPointer
               case Store(_, _, isPointer) => isPointer && o == d.cur
               case MR => o == d.cur
               case _ => false
      ensures SrcsInScope(Item(o, d.loc))
    {
      assert g.IsItem(d);
      forall e | e in g.IndirectSrcs(o, d.loc) && e in g.items ensures e in scope {
        assert g.Calls(d, e);
      }
    }

    method BacktraceAlongIndirectVF(acc: set<NodeID>, d: Item, ghost missing: set<Fact>,
                                    ghost unmarked: set<Item>) returns (pts: set<NodeID>)
      requires Valid() && Within(missing, unmarked) && SrcsInScope(d) && d.cur in g.objs && HasLoad(d)
      modifies `backwardVisited, `tlPts, `adPts, `locToDpms, `loadDpm, `loadCVar, `outOfBudgetQuery, `steps
      ensures Valid() && Within(missing, unmarked) && Preserves(g, old(Now()), Now())
      ensures Gathered(old(Now()), Now(), g.IndirectSrcs(d.cur, d.loc), acc, pts)
      decreases missing, unmarked, 5
    {
      PreservesReflexive(g, Now());
      pts := acc;
      if d.cur !in g.constantObjs {
        pts := BacktraceIndirectEdges(acc, d, missing, unmarked);
      }
    }

    method BacktraceIndirectEdges(acc: set<NodeID>, d: Item, ghost missing: set<Fact>,
                                  ghost unmarked: set<Item>) returns (pts: set<NodeID>)
      requires Valid() && Within(missing, unmarked) && SrcsInScope(d) && d.cur in g.objs - g.constantObjs && HasLoad(d)
      modifies `backwardVisited, `tlPts, `adPts, `locToDpms, `loadDpm, `loadCVar, `outOfBudgetQuery, `steps
      ensures Valid() && Within(missing, unmarked) && Preserves(g, old(Now()), Now())
      ensures Gathered(old(Now()), Now(), g.IndirectSrcs(d.cur, d.loc), acc, pts)
      decreases missing, unmarked, 4
    {
      ghost var s := Now();
      PreservesReflexive(g, s);
      IndirectSrcsFromEdges(g, d.cur, d.loc);
      pts := acc;
      var edges := g.inEdges(d.loc);
      for i := 0 to |edges|
        invariant Valid() && Within(missing, unmarked) && Preserves(g, s, Now()) && HasLoad(d)
        invariant Gathered(s, Now(), IndirectSrcsOf(d.cur, edges[..i]), acc, pts)
      {
        ghost var t, mid := Now(), pts;
        pts := BacktraceIndirectEdge(pts, d, edges[i], missing, unmarked);
        LoadKept(d, s);
        GatheredIndirectEdge(g, d.cur, s, t, Now(), edges, i, acc, mid, pts);
      }
    }

    // Records stay.
    lemma LoadKept(d: Item, s: Snap)
      requires LoadsOk() && d in s.recorded && s.recorded <= Now().recorded
      ensures HasLoad(d)
    {
    }

    method BacktraceIndirectEdge(acc: set<NodeID>, d: Item, edge: Edge, ghost missing: set<Fact>,
                                 ghost unmarked: set<Item>) returns (pts: set<NodeID>)
      requires Valid() && Within(missing, unmarked) && SrcsInScope(d) && edge in g.inEdges(d.loc) &&
               d.cur in g.objs - g.constantObjs && HasLoad(d)
      modifies `backwardVisited, `tlPts, `adPts, `locToDpms, `loadDpm, `loadCVar, `outOfBudgetQuery, `steps
      ensures Valid() && Within(missing, unmarked) && Preserves(g, old(Now()), Now())
      ensures Gathered(old(Now()), Now(), IndirectSrcsOf(d.cur, [edge]), acc, pts)
      decreases missing, unmarked, 3
    {
      if edge.Indirect? && d.cur in edge.guard {
        IndirectSrcIsItem(g, d.cur, d.loc, edge);
        assert Item(d.cur, edge.src) in g.IndirectSrcs(d.cur, d.loc);
        pts := BackwardPropDpm(acc, d.cur, d, edge, missing, unmarked);
        assert IndirectSrcsOf(d.cur, [edge]) == {Item(d.cur, edge.src)};
      } else {
        PreservesReflexive(g, Now());
        pts := acc;
      }
    }

    // pts may be merged into d's set. A relay has its variable's set already.
    ghost predicate MayMerge(d: Item, pts: set<NodeID>)
      reads `tlPts, `adPts, `bound
    {
      pts <= At(bound, d) && (byVariable && g.IsRelay(d.loc) ==> pts <= At(Pts(), d))
    }

    lemma FlowMayMerge(d: Item, pts: set<NodeID>)
      requires Valid() && d in scope && pts <= g.Flow(d, Pts())
      ensures MayMerge(d, pts)
    {
      FlowMonotone(g, d, Pts(), bound);
      assert g.IsItem(d);
      if byVariable && g.IsRelay(d.loc) {
        assert g.DirectSrcs(d.loc) <= {g.DefItem(d.cur)};
        assert g.IsDefined(d.cur) ==> g.IsItem(g.DefItem(d.cur)) && Share(g.DefItem(d.cur), d);
      }
    }

    // Merge pts into d's cached set.
    method UnionDDAPts(d: Item, pts: set<NodeID>) returns (grew: bool)
      requires d in g.items
      modifies `tlPts, `adPts
      ensures Unites(d, pts, old(Pts()), Pts()) && Now() == old(Now()).(pts := Pts())
      ensures grew <==> !(pts <= At(old(Pts()), d))
    {
      var was := Cached(d);
      grew := !(pts <= was);
      if g.IsTopLevel(d.loc) {
        tlPts := tlPts[Key(d) := was + pts];
      } else {
        adPts := adPts[d := was + pts];
      }
    }

    // From x to y, pts was added to the set that d shares with others, and nothing else changed.
    ghost predicate Unites(d: Item, pts: set<NodeID>, x: PtsMap, y: PtsMap) {
      x.Keys == y.Keys == g.items && forall e | e in g.items ::
        (Share(d, e) ==> At(x, e) == At(x, d)) && At(y, e) == At(x, e) + if Share(d, e) then pts else {}
    }

    // Merging where it may be merged leaves completed items alone, and only exempt items miss
    // that another item grew along with d.
    lemma UnitesIsMerged(d: Item, pts: set<NodeID>, s1: Snap, s2: Snap)
      requires d in g.items && d in s1.known && s1.known <= s1.visited
      requires s2 == s1.(pts := s2.pts) && Unites(d, pts, s1.pts, s2.pts)
      requires byVariable ==> g.RelaysOk() && DefinitionsFirst(s1.visited - s1.known)
      requires byVariable && g.IsRelay(d.loc) ==> pts <= At(s1.pts, d)
      requires s1.exempt == Exempt(s1.visited - s1.known)
      ensures MergedInto(g, d, pts, s1, s2)
    {
      forall e | e != d && At(s1.pts, e) != At(s2.pts, e)
        ensures !(e in s1.visited && e !in s1.known)
        ensures forall x | x in g.items && g.MayRead(x, e) :: IsExempt(g, x, s1)
      {
        IsRelayOf(d, e);
        forall x | x in g.items && g.MayRead(x, e) ensures IsExempt(g, x, s1) {
          RelayReader(x, e, s1.visited - s1.known);
        }
      }
    }

    // An item that shares the set of a definition is a relay.
    lemma IsRelayOf(d: Item, e: Item)
      requires d in g.items && e in g.items && d != e && Share(d, e) && !g.IsRelay(d.loc)
      ensures g.IsRelay(e.loc) && g.IsDefined(e.cur) && g.DefItem(e.cur) == d
    {
      assert g.IsItem(d) && g.IsItem(e);
    }

    lemma RelayReader(x: Item, e: Item, done: set<Item>)
      requires x in g.items && e in g.items && g.MayRead(x, e)
      requires byVariable && g.IsRelay(e.loc) && g.IsDefined(e.cur) && g.DefItem(e.cur) !in done
      ensures x in Exempt(done) && (g.kind(x.loc).Copy? || g.kind(x.loc).Gep?)
    {
      assert g.IsItem(x) && g.IsItem(e) && g.OperandsOk(x.loc);
    }

    // What is merged stays below the bound, also at the relays of d's variable.
    lemma MergedIsBounded(d: Item, pts: set<NodeID>, x: PtsMap, y: PtsMap)
      requires d in g.items && Unites(d, pts, x, y) && IsBound(g, bound) && Below(x, bound) && pts <= At(bound, d)
      requires byVariable ==> g.RelaysOk()
      requires byVariable && g.IsRelay(d.loc) ==> pts <= At(x, d)
      ensures Below(y, bound)
    {
      forall e | e in g.items && Share(d, e) && e != d && !g.IsRelay(d.loc) ensures pts <= At(bound, e) {
        IsRelayOf(d, e);
        assert g.IsItem(e);
        assert d in g.DirectSrcs(e.loc);
        assert pts <= g.Flow(e, bound);
      }
    }

    method UpdateCachedPointsTo(d: Item, pts: set<NodeID>, ghost missing: set<Fact>, ghost unmarked: set<Item>)
      requires Valid() && Within(missing, unmarked) && d in Known() && MayMerge(d, pts)
      modifies `backwardVisited, `tlPts, `adPts, `locToDpms, `loadDpm, `loadCVar, `outOfBudgetQuery, `steps
      ensures Valid() && Within(missing, unmarked) && Preserves(g, old(Now()), Now())
      ensures pts <= At(Pts(), d)
      ensures outOfBudgetQuery || Stable(g, d, Now()) || !Covers(g, d, old(Now()), pts)
      decreases missing, unmarked, 10
    {
      ghost var s1 := Now();
      var grew;
      ghost var less;
      grew, less := MergePts(d, pts, missing, unmarked);
      ghost var s2 := Now();
      if grew {
        ReCompute(d, missing, less, unmarked);
      } else {
        PreservesReflexive(g, s2);
      }
      MergedThenRecomputed(g, d, s1, s2, Now(), pts);
    }

    // Unite pts into d's set; if that grows, fewer facts are missing.
    method MergePts(d: Item, pts: set<NodeID>, ghost missing: set<Fact>, ghost unmarked: set<Item>)
      returns (grew: bool, ghost less: set<Fact>)
      requires Valid() && Within(missing, unmarked) && d in Known() && MayMerge(d, pts)
      modifies `tlPts, `adPts
      ensures Valid() && MergedInto(g, d, pts, old(Now()), Now())
      ensures grew <==> !(pts <= At(old(Pts()), d))
      ensures Within(less, unmarked) && if grew then less < missing else less == missing
    {
      ghost var s1 := Now();
      grew := UnionDDAPts(d, pts);
      UnitesIsMerged(d, pts, s1, Now());
      MergedIsBounded(d, pts, s1.pts, Pts());
      less := missing;
      if grew {
        ghost var fact := GrowthShrinksMissing(g, s1.pts, Pts(), d, pts);
        less := missing - {fact};
      }
    }

    // Re-evaluate every known item that depends on d, whose set has just grown.
    method ReCompute(d: Item, ghost before: set<Fact>, ghost missing: set<Fact>, ghost unmarked: set<Item>)
      requires Valid() && Within(missing, unmarked) && missing < before
      modifies `backwardVisited, `tlPts, `adPts, `locToDpms, `loadDpm, `loadCVar, `outOfBudgetQuery, `steps
      ensures Valid() && Within(missing, unmarked) && Preserves(g, old(Now()), Now())
      ensures Recomputed(g, d, g.outEdges(d.loc), old(Now()), Now())
      decreases before, unmarked, 8
    {
      ReComputeForEdges(d, g.outEdges(d.loc), before, missing, unmarked);
    }

    method ReComputeForEdges(d: Item, edges: seq<Edge>, ghost before: set<Fact>, ghost missing: set<Fact>,
                             ghost unmarked: set<Item>)
      requires Valid() && Within(missing, unmarked) && missing < before
      modifies `backwardVisited, `tlPts, `adPts, `locToDpms, `loadDpm, `loadCVar, `outOfBudgetQuery, `steps
      ensures Valid() && Within(missing, unmarked) && Preserves(g, old(Now()), Now())
      ensures Recomputed(g, d, edges, old(Now()), Now())
      decreases before, unmarked, 7
    {
      ghost var s := Now();
      PreservesReflexive(g, s);
      for i := 0 to |edges|
        invariant Valid() && Within(missing, unmarked) && Preserves(g, s, Now())
        invariant Recomputed(g, d, edges[..i], s, Now())
      {
        ghost var t := Now();
        ReComputeForEdge(d, edges[i], before, missing, unmarked);
        RecomputedOneMore(g, d, edges[..i], edges[i], s, t, Now());
        assert edges[..i + 1] == edges[..i] + [edges[i]];
      }
      assert edges[..|edges|] == edges;
    }

    method ReComputeForEdge(d: Item, edge: Edge, ghost before: set<Fact>, ghost missing: set<Fact>,
                            ghost unmarked: set<Item>)
      requires Valid() && Within(missing, unmarked) && missing < before
      modifies `backwardVisited, `tlPts, `adPts, `locToDpms, `loadDpm, `loadCVar, `outOfBudgetQuery, `steps
      ensures Valid() && Within(missing, unmarked)
      ensures Preserves(g, old(Now()), Now())
      ensures Recomputed(g, d, [edge], old(Now()), Now())
      decreases before, unmarked, 6
    {
      ghost var s := Now();
      PreservesReflexive(g, s);
      if edge.dst in locToDpms {
        KnownAt(edge.dst);
        var order := Enumerate(locToDpms[edge.dst]);
        assert Valid() && Now() == s;
        ReComputeItems(d, edge, order, before, missing, unmarked);
      }
    }

    lemma KnownAt(n: NodeID)
      requires MarksOk({}) && n in locToDpms
      ensures forall x | x in locToDpms[n] :: x in Known() && x.loc == n
    {
    }

    method ReComputeItems(d: Item, edge: Edge, order: seq<Item>, ghost before: set<Fact>, ghost missing: set<Fact>,
                          ghost unmarked: set<Item>)
      requires Valid() && Within(missing, unmarked) && missing < before
      requires forall x | x in order :: x in Known() && x.loc == edge.dst
      modifies `backwardVisited, `tlPts, `adPts, `locToDpms, `loadDpm, `loadCVar, `outOfBudgetQuery, `steps
      ensures Valid() && Within(missing, unmarked) && Preserves(g, old(Now()), Now())
      ensures RecomputedItems(g, d, edge, order, Now())
      decreases before, unmarked, 5
    {
      ghost var s := Now();
      PreservesReflexive(g, s);
      for i := 0 to |order|
        invariant Valid() && Within(missing, unmarked) && Preserves(g, s, Now())
        invariant RecomputedItems(g, d, edge, order[..i], Now())
      {
        ghost var t := Now();
        ReComputeItem(d, edge, order[i], before, missing, unmarked);
        RecomputedOneItem(g, d, edge, order, i, s, t, Now());
      }
      assert order[..|order|] == order;
    }

    // Only items that track d's own object are affected along an indirect edge, unless it
    // ends in a load.
    method ReComputeItem(d: Item, edge: Edge, x: Item, ghost before: set<Fact>, ghost missing: set<Fact>,
                         ghost unmarked: set<Item>)
      requires Valid() && Within(missing, unmarked) && missing < before && x in Known() && x.loc == edge.dst
      modifies `backwardVisited, `tlPts, `adPts, `locToDpms, `loadDpm, `loadCVar, `outOfBudgetQuery, `steps
      ensures Valid() && Within(missing, unmarked)
      ensures Preserves(g, old(Now()), Now())
      ensures RecomputedItems(g, d, edge, [x], Now())
      decreases before, unmarked, 4
    {
      ghost var s := Now();
      PreservesReflexive(g, s);
      if edge.Indirect? && !g.kind(edge.dst).Load? {
        if x.cur == d.cur {
          ReVisit(x, before, missing, unmarked);
        }
      } else {
        ReVisit(x, before, missing, unmarked);
      }
    }

    method ReVisit(x: Item, ghost before: set<Fact>, ghost missing: set<Fact>, ghost unmarked: set<Item>)
      requires Valid() && Within(missing, unmarked) && missing < before && x in Known()
      modifies `backwardVisited, `tlPts, `adPts, `locToDpms, `loadDpm, `loadCVar, `outOfBudgetQuery, `steps
      ensures Valid() && Within(missing, unmarked)
      ensures Preserves(g, old(Now()), Now())
      ensures outOfBudgetQuery || Stable(g, x, Now())
      decreases before, unmarked, 3
    {
      ghost var s := Now();
      ClearbkVisited(x);
      var _ := FindPT(x, missing, unmarked + {x});
      PreservesAfterClear(g, s, x, Now());
    }

    // ----- queries -----

    // Unmark this query's items, except those that stay forced to the fallback.
    method OOBResetVisited()
      requires Known() <= backwardVisited
      modifies `backwardVisited
      ensures backwardVisited == old(backwardVisited) - (Known() - outOfBudgetDpms)
    {
      var order := Enumerate(Known());
      for i := 0 to |order|
        invariant backwardVisited == old(backwardVisited) - ((set x | x in order[..i]) - outOfBudgetDpms)
      {
        assert order[..i + 1] == order[..i] + [order[i]];
        if order[i] !in outOfBudgetDpms {
          ClearbkVisited(order[i]);
        }
      }
      assert order[..|order|] == order;
    }

    method ResetQuery()
      requires Known() <= backwardVisited
      modifies `backwardVisited, `locToDpms, `loadDpm, `loadCVar, `outOfBudgetQuery, `steps
      ensures backwardVisited == old(Completed()) == Completed()
      ensures locToDpms == map[] && Known() == {} && loadCVar == map[] && !outOfBudgetQuery
      ensures Pts() == old(Pts())
    {
      if outOfBudgetQuery {
        OOBResetVisited();
      }
      locToDpms := map[];
      loadDpm := map[];
      loadCVar := map[];
      outOfBudgetQuery := false;
      steps := 0;
    }

    method StartQuery(budget: nat)
      requires Quiescent()
      modifies `backwardVisited, `locToDpms, `loadDpm, `loadCVar, `outOfBudgetQuery, `steps, `maxBudget
      ensures Quiescent() && Reached() == old(Reached()) && backwardVisited == old(Completed()) == Completed()
      ensures locToDpms == map[] && Known() == {} && loadCVar == map[] && !outOfBudgetQuery
    {
      ResetQuery();
      maxBudget := budget;
    }

    // Before d is evaluated everything marked is final, and what d leads on to is in scope.
    ghost method EnterScope(d: Item)
      requires Quiescent() && locToDpms == map[] && loadCVar == map[] && !outOfBudgetQuery
      requires d in g.items && d == g.DefItem(d.cur)
      modifies `final, `scope, `exempt
      ensures Valid() && d in scope && Reached() == old(Reached()) && Evaluated(d.cur, Reached(), Now())
    {
      if byVariable { CompletedDefinitions(); }
      assert MarksOk({}) && LoadsOk();
      SetScope(d);
      PreservesReflexive(g, Now());
    }

    ghost method SetScope(d: Item)
      requires d in g.items && Known() == {} && (byVariable ==> g.RelaysOk() && DefinitionsFirst(backwardVisited))
      modifies `final, `scope, `exempt
      ensures ScopeOk() && exempt == Exempt(backwardVisited) && scope == g.Scope(d) && d in scope
    {
      final, scope, exempt := backwardVisited, g.Scope(d), Exempt(backwardVisited);
      ScopeIsClosed(g, d);
    }

    lemma CompletedDefinitions()
      requires Quiescent() && byVariable
      ensures DefinitionsFirst(Completed())
    {
      forall x | x in Completed() && g.IsTopLevel(x.loc) && g.IsDefined(x.cur) && x != g.DefItem(x.cur)
        ensures g.DefItem(x.cur) in Completed()
      {
        assert g.IsItem(x) && g.IsRelay(x.loc);
        assert g.DefItem(x.cur) in g.DirectSrcs(x.loc);
        assert g.DefItem(x.cur) in g.Reads(x, Pts());
      }
    }

    ghost function Reached(): Outcome
      reads `backwardVisited, `locToDpms, `outOfBudgetQuery, `outOfBudgetDpms, `tlPts, `adPts, `doubtful, `seeds
    {
      Outcome(Completed(), Pts(), doubtful, seeds)
    }

    // From s to t a query for v was answered with pts, and ran out of budget or not. What was
    // completed before is not changed, new doubts arise only where a relay was read before its
    // variable was completed, and only running out of budget seeds an item, the queried one.
    ghost predicate Answers(v: NodeID, pts: set<NodeID>, out: bool, s: Outcome, t: Outcome) {
      && s.completed + {g.DefItem(v)} <= t.completed && pts == At(t.pts, g.DefItem(v))
      && (forall x | x in s.completed :: At(s.pts, x) == At(t.pts, x))
      && s.doubtful <= t.doubtful <= s.doubtful + NewDoubts(v, s.completed)
      && t.seeds == if out then s.seeds[g.DefItem(v) := ander(v)] else s.seeds
    }

    // The evaluation for v that started at s, from what earlier queries left, has ended.
    ghost predicate Evaluated(v: NodeID, start: Outcome, s: Snap)
      reads `backwardVisited, `locToDpms, `loadCVar, `tlPts, `adPts, `scope, `exempt, `seeds, `doubtful,
            `outOfBudgetQuery
    {
      && start == Outcome(s.visited, s.pts, doubtful, seeds) && exempt * scope <= NewDoubts(v, s.visited)
      && Settled(g, seeds, s.pts, s.visited, doubtful) && s.known == {} && Preserves(g, s, Now())
    }

    // Reset and evaluate v. The snapshot is the state in which the evaluation started.
    method RunQuery(v: NodeID, budget: nat) returns (pts: set<NodeID>, ghost s: Snap)
      requires Quiescent() && g.IsDefined(v)
      modifies `backwardVisited, `locToDpms, `loadDpm, `loadCVar, `outOfBudgetQuery, `steps, `maxBudget, `tlPts, `adPts,
               `final, `scope, `exempt
      ensures Valid() && Evaluated(v, old(Reached()), s) && pts == At(Pts(), g.DefItem(v))
      ensures var d := g.DefItem(v);
        d in g.items && d in backwardVisited && (outOfBudgetQuery ==> d in Known() && d !in s.visited)
    {
      assert g.IsItem(g.DefItem(v));
      StartQuery(budget);
      EnterScope(g.DefItem(v));
      s := Now();
      pts := FindQueried(v, s);
    }

    method FindQueried(v: NodeID, ghost s: Snap) returns (pts: set<NodeID>)
      requires Valid() && !outOfBudgetQuery && g.DefItem(v) in scope && g.IsDefined(v)
      requires s == Now() && Evaluated(v, Reached(), s)
      modifies `backwardVisited, `tlPts, `adPts, `locToDpms, `loadDpm, `loadCVar, `outOfBudgetQuery, `steps
      ensures Valid() && Evaluated(v, old(Reached()), s) && pts == At(Pts(), g.DefItem(v))
      ensures var d := g.DefItem(v); d in backwardVisited && (outOfBudgetQuery ==> d in Known() && d !in s.visited)
    {
      pts := FindPT(g.DefItem(v), Missing(g, Pts()), g.items);
    }

    // Answer one query: the points-to set of top-level variable v.
    method ComputeDDAPts(v: NodeID, budget: nat) returns (pts: set<NodeID>)
      requires Quiescent() && g.IsDefined(v)
      modifies this
      ensures Quiescent() && Answers(v, pts, outOfBudgetQuery, old(Reached()), Reached())
      // no cache is ever more than the least solution, and all completed ones are exactly that
      // where no item in doubt misses its equation
      ensures g.IsLeast(seeds, bound) && Below(Pts(), bound)
      ensures FallbackIsSound() ==> (Exact() <==> Satisfied(g, Pts(), doubtful))
    {
      pts := CompleteQuery(v, budget);
      if FallbackIsSound() { CompletedIsExact(); }
    }

    method CompleteQuery(v: NodeID, budget: nat) returns (pts: set<NodeID>)
      requires Quiescent() && g.IsDefined(v)
      modifies this
      ensures Quiescent() && Answers(v, pts, outOfBudgetQuery, old(Reached()), Reached())
    {
      ghost var start, s := Reached(), Now();
      pts, s := RunQuery(v, budget);
      if outOfBudgetQuery {
        HandleOutOfBudgetDpm(g.DefItem(v), start, s);
        pts := Cached(g.DefItem(v));
      } else {
        FinishInBudget(v, pts, start, s);
      }
    }

    // The same where nothing is done about a query that runs out of budget: it completes and
    // forces nothing, and leaves every completed cache and every doubt as it was.
    method ComputeWithoutFallback(v: NodeID, budget: nat) returns (pts: set<NodeID>)
      requires Quiescent() && g.IsDefined(v)
      modifies this
      ensures Quiescent() && seeds == old(seeds)
      ensures if outOfBudgetQuery then GivesUp(old(Reached()), Reached())
              else Answers(v, pts, false, old(Reached()), Reached())
      ensures pts <= At(bound, g.DefItem(v)) && g.IsLeast(seeds, bound) && Below(Pts(), bound)
      ensures FallbackIsSound() ==> (Exact() <==> Satisfied(g, Pts(), doubtful))
    {
      pts := CompleteOrGiveUp(v, budget);
      if FallbackIsSound() { CompletedIsExact(); }
    }

    // From s to t nothing was completed, forced, doubted or changed.
    ghost predicate GivesUp(s: Outcome, t: Outcome) {
      && t.completed == s.completed && t.doubtful == s.doubtful && t.seeds == s.seeds
      && forall x | x in s.completed :: At(s.pts, x) == At(t.pts, x)
    }

    method CompleteOrGiveUp(v: NodeID, budget: nat) returns (pts: set<NodeID>)
      requires Quiescent() && g.IsDefined(v)
      modifies this
      ensures Quiescent() && pts == At(Pts(), g.DefItem(v))
      ensures if outOfBudgetQuery then GivesUp(old(Reached()), Reached())
              else Answers(v, pts, false, old(Reached()), Reached())
    {
      ghost var start, s := Reached(), Now();
      pts, s := RunQuery(v, budget);
      if outOfBudgetQuery {
        GiveUp(v, start, s);
      } else {
        FinishInBudget(v, pts, start, s);
      }
    }

    // What a query that ran out of budget visited is exposed again.
    lemma GiveUp(v: NodeID, start: Outcome, s: Snap)
      requires Valid() && BoundOk() && Evaluated(v, start, s) && outOfBudgetQuery
      ensures Quiescent() && GivesUp(start, Reached())
    {
      assert Completed() == s.visited;
      forall x | x in s.visited
        ensures At(Pts(), x) == At(s.pts, x)
        ensures x in seeds || ((x in doubtful || g.Flow(x, Pts()) <= At(Pts(), x)) && g.Reads(x, Pts()) <= s.visited)
      {
        CompletedUntouched(g, seeds, doubtful, s, Now(), x);
      }
    }

    // Where the pre-analysis is sound or was never used, the completed caches are exactly the
    // least solution if and only if the items in doubt satisfy their equations.
    lemma CompletedIsExact()
      requires Quiescent() && FallbackIsSound()
      ensures Exact() <==> Satisfied(g, Pts(), doubtful)
    {
      var fallback := if seeds == map[] then bound else AnderAssignment(g, ander);
      ExactIffSatisfied(g, seeds, fallback, bound, Pts(), Completed(), doubtful);
    }

    // A query within budget completes what it visited. Its exempt items are in doubt.
    ghost method FinishInBudget(v: NodeID, pts: set<NodeID>, start: Outcome, s: Snap)
      requires Valid() && BoundOk() && Evaluated(v, start, s) && !outOfBudgetQuery
      requires g.DefItem(v) in backwardVisited && pts == At(Pts(), g.DefItem(v))
      modifies `doubtful
      ensures Quiescent() && Answers(v, pts, false, start, Reached())
    {
      QuerySettles(g, seeds, doubtful, s, Now());
      forall x | x in s.visited ensures At(Pts(), x) == At(s.pts, x) {
        CompletedUntouched(g, seeds, doubtful, s, Now(), x);
      }
      doubtful := doubtful + exempt * Known();
    }

    // The query item falls back to the pre-analysis and stays marked from now on.
    method HandleOutOfBudgetDpm(d: Item, ghost start: Outcome, ghost s: Snap)
      requires Valid() && BoundOk() && Evaluated(d.cur, start, s) && outOfBudgetQuery
      requires d in Known() && d !in s.visited && d == g.DefItem(d.cur)
      modifies this
      ensures Quiescent() && outOfBudgetQuery && Answers(d.cur, At(Pts(), d), true, start, Reached())
    {
      ghost var forced := outOfBudgetDpms;
      ForceAndUpdate(d, start, s);
      AddOutOfBudgetDpm(d, s.visited);
      ForcedIsQuiescent(d, s.visited, forced);
    }

    // Beside what was done before the query, with these items forced, d is settled by a seed.
    ghost predicate Forced(d: Item, done: set<Item>, forced: set<Item>)
      reads `backwardVisited, `locToDpms, `tlPts, `adPts, `seeds, `bound, `outOfBudgetQuery, `doubtful
    {
      && outOfBudgetQuery && d in Known() && backwardVisited == done + Known() && Known() * done == {}
      && AnderInObjs(g, ander) && (byVariable ==> g.RelaysOk()) && doubtful <= Exempt({})
      && g.IsLeast(seeds, bound) && CachesOk() && Settled(g, seeds, Pts(), done + {d}, doubtful)
      && forced <= done && seeds.Keys == forced + {d} && seeds.Keys <= g.items
      && forall x | x in seeds :: seeds[x] == ander(x.cur) && x == g.DefItem(x.cur)
    }

    method AddOutOfBudgetDpm(d: Item, ghost done: set<Item>)
      requires Forced(d, done, outOfBudgetDpms)
      modifies `outOfBudgetDpms
      ensures outOfBudgetDpms == old(outOfBudgetDpms) + {d}
      ensures Forced(d, done, old(outOfBudgetDpms)) && Pts() == old(Pts())
      ensures doubtful == old(doubtful) && seeds == old(seeds)
    {
      outOfBudgetDpms := outOfBudgetDpms + {d};
    }

    lemma ForcedIsQuiescent(d: Item, done: set<Item>, forced: set<Item>)
      requires Forced(d, done, forced) && outOfBudgetDpms == forced + {d}
      ensures Quiescent() && Reached() == Outcome(done + {d}, Pts(), doubtful, seeds)
    {
      CompletedWith(done, Known(), forced, d);
      assert Completed() == done + {d};
    }

    static lemma CompletedWith(done: set<Item>, known: set<Item>, forced: set<Item>, d: Item)
      requires known * done == {} && d in known && forced <= done
      ensures done + known - (known - (forced + {d})) == done + {d}
    {
    }

    method ForceAndUpdate(d: Item, ghost start: Outcome, ghost s: Snap)
      requires Valid() && BoundOk() && Evaluated(d.cur, start, s) && outOfBudgetQuery
      requires d in Known() && d !in s.visited && d == g.DefItem(d.cur)
      modifies `backwardVisited, `tlPts, `adPts, `locToDpms, `loadDpm, `loadCVar, `outOfBudgetQuery, `steps, `seeds,
               `bound
      ensures Forced(d, s.visited, outOfBudgetDpms)
      ensures Answers(d.cur, At(Pts(), d), true, start, Outcome(s.visited + {d}, Pts(), doubtful, seeds))
    {
      ForceSet(d, s);
      FinishOutOfBudget(d, start, s);
    }

    // Unite the pre-analysis's set into the cache and re-evaluate what depends on it.
    method ForceSet(d: Item, ghost s: Snap)
      requires Valid() && BoundOk() && outOfBudgetQuery && d in Known() && d !in seeds && d == g.DefItem(d.cur)
      requires Preserves(g, s, Now())
      modifies `backwardVisited, `tlPts, `adPts, `locToDpms, `loadDpm, `loadCVar, `outOfBudgetQuery, `steps, `seeds,
               `bound
      ensures seeds == old(seeds)[d := ander(d.cur)] && g.IsLeast(seeds, bound) && CachesOk()
      ensures outOfBudgetQuery && d in Known() && Grows(s, Now()) && ander(d.cur) <= At(Pts(), d)
    {
      ForceSeed(d);
      UniteAnder(d, s);
    }

    method UniteAnder(d: Item, ghost s: Snap)
      requires Valid() && outOfBudgetQuery && d in Known() && MayMerge(d, ander(d.cur)) && Preserves(g, s, Now())
      modifies `backwardVisited, `tlPts, `adPts, `locToDpms, `loadDpm, `loadCVar, `outOfBudgetQuery, `steps
      ensures CachesOk() && outOfBudgetQuery && d in Known() && Grows(s, Now()) && ander(d.cur) <= At(Pts(), d)
    {
      ghost var was := Now();
      UpdateCachedPointsTo(d, ander(d.cur), Missing(g, Pts()), g.items);
      GrowsTransitive(s, was, Now());
    }

    // A new seed leaves everything but the bound as it was.
    ghost method ForceSeed(d: Item)
      requires Valid() && BoundOk() && d in g.items && d !in seeds && d == g.DefItem(d.cur)
      modifies `seeds, `bound
      ensures Valid() && Now() == old(Now()) && MayMerge(d, ander(d.cur))
      ensures g.IsLeast(seeds, bound) && seeds == old(seeds)[d := ander(d.cur)]
    {
      RaiseBound(d);
      assert g.IsItem(d);
    }

    // The new seed raises the least solution, which keeps bounding every cache.
    ghost method RaiseBound(d: Item)
      requires CachesOk() && d in g.items && d !in seeds
      requires BoundOk()
      modifies `seeds, `bound
      ensures CachesOk() && g.IsLeast(seeds, bound) && ander(d.cur) <= At(bound, d)
      ensures seeds == old(seeds)[d := ander(d.cur)]
    {
      var more := MoreSeeds(d);
      BelowTransitive(Pts(), bound, more);
      seeds := seeds[d := ander(d.cur)];
      bound := more;
    }

    lemma MoreSeeds(d: Item) returns (more: PtsMap)
      requires BoundOk()
      requires d in g.items && d !in seeds
      ensures g.IsLeast(seeds[d := ander(d.cur)], more) && IsBound(g, more)
      ensures Below(bound, more) && ander(d.cur) <= At(more, d)
    {
      var seeds' := seeds[d := ander(d.cur)];
      assert SeedsOk(g, seeds');
      more := LeastExists(g, seeds');
      assert Below(seeds, more) by {
        forall e ensures At(seeds, e) <= At(more, e) {
          assert At(seeds', e) <= At(more, e);
        }
      }
      assert g.IsPreFix(seeds, more);
      assert At(seeds', d) <= At(more, d);
    }

    lemma FinishOutOfBudget(d: Item, start: Outcome, s: Snap)
      requires outOfBudgetQuery && d in Known() && d in g.items && d !in s.visited && d == g.DefItem(d.cur)
      requires AnderInObjs(g, ander) && (byVariable ==> g.RelaysOk()) && doubtful <= Exempt({})
      requires start == Outcome(s.visited, s.pts, doubtful, start.seeds) && seeds == start.seeds[d := ander(d.cur)]
      requires start.seeds.Keys == outOfBudgetDpms
      requires forall x | x in start.seeds :: start.seeds[x] == ander(x.cur) && x == g.DefItem(x.cur)
      requires s.known == {} && Settled(g, start.seeds, s.pts, s.visited, doubtful)
      requires g.IsLeast(seeds, bound) && CachesOk() && Grows(s, Now()) && ander(d.cur) <= At(Pts(), d)
      ensures Forced(d, s.visited, outOfBudgetDpms)
      ensures Answers(d.cur, At(Pts(), d), true, start, Outcome(s.visited + {d}, Pts(), doubtful, seeds))
    {
      SeedAnswers(d, start, s, Now());
    }

    // Giving d its seed settles d and nothing else.
    lemma SeedAnswers(d: Item, start: Outcome, s: Snap, t: Snap)
      requires d in g.items && d !in s.visited && d == g.DefItem(d.cur) && Grows(s, t) && ander(d.cur) <= At(t.pts, d)
      requires start == Outcome(s.visited, s.pts, start.doubtful, start.seeds)
      requires s.known == {} && Settled(g, start.seeds, s.pts, s.visited, start.doubtful)
      ensures t.visited == s.visited + t.known && t.known * s.visited == {}
      ensures var seeds' := start.seeds[d := ander(d.cur)]; var done := s.visited + {d};
        && Settled(g, seeds', t.pts, done, start.doubtful)
        && Answers(d.cur, At(t.pts, d), true, start, Outcome(done, t.pts, start.doubtful, seeds'))
    {
      ForcedItemSettles(g, start.seeds, start.doubtful, s, t, d, ander(d.cur));
      forall x | x in s.visited ensures At(t.pts, x) == At(s.pts, x) {
        CompletedUntouched(g, start.seeds, start.doubtful, s, t, x);
      }
    }

    // The caches still give the answers.
    ghost predicate StillAnswered(queries: seq<NodeID>, answers: seq<set<NodeID>>, now: Outcome) {
      && |answers| <= |queries|
      && forall i | 0 <= i < |answers| ::
           g.DefItem(queries[i]) in now.completed && answers[i] == At(now.pts, g.DefItem(queries[i]))
    }

    // The first n queries completed their items and seeded those that ran out of budget.
    ghost predicate Added(queries: seq<NodeID>, n: nat, ranOut: seq<bool>, start: Outcome, now: Outcome) {
      && n == |ranOut| <= |queries|
      && start.completed + Queried(g, queries, n) <= now.completed
      && now.seeds.Keys == start.seeds.Keys + Overrun(g, queries, ranOut)
    }

    lemma StillAnsweredNext(queries: seq<NodeID>, answers: seq<set<NodeID>>, pts: set<NodeID>, out: bool, s: Outcome,
                            t: Outcome)
      requires StillAnswered(queries, answers, s) && |answers| < |queries|
      requires Answers(queries[|answers|], pts, out, s, t)
      ensures StillAnswered(queries, answers + [pts], t)
    {
    }

    lemma AddedNext(queries: seq<NodeID>, n: nat, ranOut: seq<bool>, pts: set<NodeID>, out: bool, start: Outcome,
                    s: Outcome, t: Outcome)
      requires Added(queries, n, ranOut, start, s) && n < |queries|
      requires Answers(queries[n], pts, out, s, t)
      ensures Added(queries, n + 1, ranOut + [out], start, t)
    {
      OneMoreQuery(g, queries, ranOut, out);
    }

    lemma NoNewDoubt(queries: seq<NodeID>, n: nat, ranOut: seq<bool>, pts: set<NodeID>, out: bool, start: Outcome,
                     s: Outcome, t: Outcome)
      requires (byVariable ==> InOrder(g, queries, start.completed)) && Added(queries, n, ranOut, start, s)
      requires n < |queries| && Answers(queries[n], pts, out, s, t)
      ensures t.doubtful <= s.doubtful
    {
      if byVariable { NextIsReady(g, queries, start.completed, n, s.completed); }
    }

    // The queries answered from start to now.
    ghost predicate Progress(queries: seq<NodeID>, answers: seq<set<NodeID>>, ranOut: seq<bool>, start: Outcome,
                             now: Outcome)
    {
      && StillAnswered(queries, answers, now) && Added(queries, |answers|, ranOut, start, now)
      && (!byVariable || InOrder(g, queries, start.completed) ==> now.doubtful <= start.doubtful)
    }

    lemma ProgressNext(queries: seq<NodeID>, answers: seq<set<NodeID>>, ranOut: seq<bool>, pts: set<NodeID>, out: bool,
                       start: Outcome, s: Outcome, t: Outcome)
      requires Progress(queries, answers, ranOut, start, s) && |answers| < |queries|
      requires Answers(queries[|answers|], pts, out, s, t)
      ensures Progress(queries, answers + [pts], ranOut + [out], start, t)
    {
      StillAnsweredNext(queries, answers, pts, out, s, t);
      AddedNext(queries, |answers|, ranOut, pts, out, start, s, t);
      if !byVariable || InOrder(g, queries, start.completed) {
        NoNewDoubt(queries, |answers|, ranOut, pts, out, start, s, t);
      }
    }

    // Answer queries one after another, each within the same budget.
    method AnswerQueries(queries: seq<NodeID>, budget: nat) returns (answers: seq<set<NodeID>>, ranOut: seq<bool>)
      requires Quiescent() && forall v | v in queries :: g.IsDefined(v)
      modifies this
      ensures Quiescent() && |answers| == |ranOut| == |queries|
      // no answer is too large, and all are exact where no item in doubt misses its equation
      ensures g.IsLeast(seeds, bound)
      ensures forall i | 0 <= i < |queries| :: answers[i] <= At(bound, g.DefItem(queries[i]))
      ensures FallbackIsSound() && Satisfied(g, Pts(), doubtful) ==>
                forall i | 0 <= i < |queries| :: answers[i] == At(bound, g.DefItem(queries[i]))
      // with a set per item, or with the queries in order, no doubt is added
      ensures !byVariable || InOrder(g, queries, old(Completed())) ==> doubtful <= old(doubtful)
      ensures FallbackIsSound() && doubtful == {} ==>
                forall i | 0 <= i < |queries| :: answers[i] == At(bound, g.DefItem(queries[i]))
      // an item is seeded if and only if a query for it ran out of budget
      ensures seeds.Keys == old(seeds.Keys) + Overrun(g, queries, ranOut)
    {
      answers, ranOut := [], [];
      ghost var start := Reached();
      for i := 0 to |queries|
        invariant Quiescent() && |answers| == i && Progress(queries, answers, ranOut, start, Reached())
      {
        ghost var s := Reached();
        var pts := ComputeDDAPts(queries[i], budget);
        ProgressNext(queries, answers, ranOut, pts, outOfBudgetQuery, start, s, Reached());
        answers, ranOut := answers + [pts], ranOut + [outOfBudgetQuery];
      }
      AnswersAreBounded(queries, answers);
    }

    lemma AnswersAreBounded(queries: seq<NodeID>, answers: seq<set<NodeID>>)
      requires Quiescent() && StillAnswered(queries, answers, Reached())
      ensures forall i | 0 <= i < |answers| :: answers[i] <= At(bound, g.DefItem(queries[i]))
      ensures FallbackIsSound() && Satisfied(g, Pts(), doubtful) ==>
                forall i | 0 <= i < |answers| :: answers[i] == At(bound, g.DefItem(queries[i]))
    {
      if FallbackIsSound() { CompletedIsExact(); }
    }
  }
}
