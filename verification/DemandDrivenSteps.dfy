/** What a re-entrant solver call may do to the solver's state, as a relation between
    snapshots, and why completed items end up with the least solution. */
module DemandDrivenSteps {
  import opened ValueFlowGraph

  datatype Snap = Snap(
    pts: PtsMap,           // every item's cached set
    visited: set<Item>,
    known: set<Item>,      // items visited by the current query
    recorded: set<Item>,   // items with a recorded load variable
    exempt: set<Item>,     // items that may miss that what they read has grown
    exhausted: bool)       // the current query ran out of budget

  // d only forwards along direct edges, so that what it reads never changes, but it may not
  // be told of a growth.
  ghost predicate IsExempt(g: SVFG, d: Item, s: Snap) {
    d in s.exempt && (g.kind(d.loc).Copy? || g.kind(d.loc).Gep?)
  }

  // d's cached set satisfies its equation, unless d is exempt, and everything the equation
  // reads is visited.
  ghost predicate Stable(g: SVFG, d: Item, s: Snap) {
    (IsExempt(g, d, s) || g.Flow(d, s.pts) <= At(s.pts, d)) && g.Reads(d, s.pts) <= s.visited
  }

  ghost predicate SameDeps(g: SVFG, d: Item, s: Snap, t: Snap) {
    IsExempt(g, d, s) || forall e | g.MayRead(d, e) :: At(s.pts, e) == At(t.pts, e)
  }

  // Caches, marks and records only grow, and what earlier queries completed is not touched.
  ghost predicate Grows(s: Snap, t: Snap) {
    && Below(s.pts, t.pts)
    && s.known <= t.known && s.recorded <= t.recorded
    && t.visited == s.visited + t.known
    && t.known * s.visited <= s.known
    && (forall x | x in s.visited && x !in s.known :: At(s.pts, x) == At(t.pts, x))
    && s.exempt == t.exempt
    && (s.exhausted ==> t.exhausted)
  }

  // Unless the budget ran out, every item that was known is now stable or saw none of its
  // dependencies change, and every item that became known is stable.
  ghost predicate Preserves(g: SVFG, s: Snap, t: Snap) {
    && Grows(s, t)
    && (t.exhausted
        || forall x {:trigger Stable(g, x, t)} {:trigger SameDeps(g, x, s, t)} | x in t.known ::
             Stable(g, x, t) || (x in s.known && SameDeps(g, x, s, t)))
  }

  lemma SameDepsSameFlow(g: SVFG, d: Item, s: Snap, t: Snap)
    requires g.WellFormed() && d in g.items && SameDeps(g, d, s, t)
    ensures IsExempt(g, d, s) || g.Flow(d, s.pts) == g.Flow(d, t.pts)
    ensures g.Reads(d, s.pts) == g.Reads(d, t.pts)
  {
    if !IsExempt(g, d, s) {
      forall e | e in g.Reads(d, s.pts) ensures At(s.pts, e) == At(t.pts, e) {
        ReadsAreDependencies(g, d, s.pts, e);
      }
      ReadsDetermineFlow(g, d, s.pts, t.pts);
    }
  }

  // An unchanged neighbourhood keeps an item stable.
  lemma StableKept(g: SVFG, d: Item, s: Snap, t: Snap)
    requires g.WellFormed() && d in g.items
    requires Grows(s, t) && Stable(g, d, s) && SameDeps(g, d, s, t)
    ensures Stable(g, d, t)
  {
    SameDepsSameFlow(g, d, s, t);
    assert At(s.pts, d) <= At(t.pts, d);
  }

  lemma StableThrough(g: SVFG, d: Item, s: Snap, t: Snap)
    requires g.WellFormed() && d in g.items
    requires Preserves(g, s, t) && d in s.known && Stable(g, d, s) && !t.exhausted
    ensures Stable(g, d, t)
  {
    if !Stable(g, d, t) { StableKept(g, d, s, t); }
  }

  lemma GrowsTransitive(s: Snap, t: Snap, u: Snap)
    requires Grows(s, t) && Grows(t, u)
    ensures Grows(s, u)
  {
    forall d ensures At(s.pts, d) <= At(u.pts, d) {
      assert At(s.pts, d) <= At(t.pts, d);
    }
  }

  lemma PreservesReflexive(g: SVFG, s: Snap)
    requires s.known <= s.visited
    ensures Preserves(g, s, s)
  {
  }

  lemma PreservesOutOfBudget(g: SVFG, s: Snap, out: bool)
    requires s.known <= s.visited && (s.exhausted ==> out)
    ensures Preserves(g, s, s.(exhausted := out))
  {
  }

  lemma PreservesTransitive(g: SVFG, s: Snap, t: Snap, u: Snap)
    requires g.WellFormed() && u.known <= g.items
    requires Preserves(g, s, t) && Preserves(g, t, u)
    ensures Preserves(g, s, u)
  {
    GrowsTransitive(s, t, u);
    if !u.exhausted {
      forall x | x in u.known ensures Stable(g, x, u) || (x in s.known && SameDeps(g, x, s, u)) {
        if !Stable(g, x, u) {
          assert x in t.known && SameDeps(g, x, t, u);
          if Stable(g, x, t) { StableKept(g, x, t, u); }
        }
      }
    }
  }

  // Clearing or recording an item changes nothing that Preserves speaks of.
  lemma PreservesAfterClear(g: SVFG, s: Snap, x: Item, t: Snap)
    requires x in s.known
    requires Preserves(g, s.(visited := s.visited - {x}), t)
    ensures Preserves(g, s, t)
  {
    var c := s.(visited := s.visited - {x});
    assert t.visited == s.visited + t.known;
    forall y | y in s.known && SameDeps(g, y, c, t) ensures SameDeps(g, y, s, t) {
    }
  }

  lemma PreservesAfterRecord(g: SVFG, s: Snap, mid: Snap, t: Snap)
    requires mid == s.(recorded := mid.recorded) && s.recorded <= mid.recorded
    requires Preserves(g, mid, t)
    ensures Preserves(g, s, t)
  {
    forall y | y in s.known && SameDeps(g, y, mid, t) ensures SameDeps(g, y, s, t) {
    }
  }

  // Between s and t every item of srcs was visited and its set added to acc: pts contains
  // at least the sets of s and at most those of t.
  ghost predicate Gathered(s: Snap, t: Snap, srcs: set<Item>, acc: set<NodeID>, pts: set<NodeID>) {
    && srcs <= t.visited
    && acc + Union(s.pts, srcs) <= pts <= acc + Union(t.pts, srcs)
  }

  function IndirectSrcsOf(o: NodeID, edges: seq<Edge>): set<Item> {
    set e | e in edges && e.Indirect? && o in e.guard :: Item(o, e.src)
  }

  function DirectSrcsOf(g: SVFG, edges: seq<Edge>): set<Item> {
    set e | e in edges && e.Direct? :: Item(g.lhs(e.src), e.src)
  }

  lemma DirectSrcsOneMore(g: SVFG, edges: seq<Edge>, i: nat)
    requires i < |edges|
    ensures DirectSrcsOf(g, edges[..i + 1]) == DirectSrcsOf(g, edges[..i]) + DirectSrcsOf(g, [edges[i]])
  {
    assert edges[..i + 1] == edges[..i] + [edges[i]];
  }

  lemma IndirectSrcsOneMore(o: NodeID, edges: seq<Edge>, i: nat)
    requires i < |edges|
    ensures IndirectSrcsOf(o, edges[..i + 1]) == IndirectSrcsOf(o, edges[..i]) + IndirectSrcsOf(o, [edges[i]])
  {
    assert edges[..i + 1] == edges[..i] + [edges[i]];
  }

  lemma IndirectSrcsFromEdges(g: SVFG, o: NodeID, n: NodeID)
    requires o !in g.constantObjs
    ensures var edges := g.inEdges(n);
      IndirectSrcsOf(o, edges[..0]) == {} && IndirectSrcsOf(o, edges[..|edges|]) == g.IndirectSrcs(o, n)
  {
    var edges := g.inEdges(n);
    assert edges[..|edges|] == edges;
  }

  lemma GatheredMore(g: SVFG, s: Snap, t: Snap, u: Snap, srcs: set<Item>, more: set<Item>,
                     acc: set<NodeID>, mid: set<NodeID>, pts: set<NodeID>)
    requires g.WellFormed() && u.known <= g.items
    requires Preserves(g, s, t) && Preserves(g, t, u)
    requires Gathered(s, t, srcs, acc, mid) && Gathered(t, u, more, mid, pts)
    ensures Preserves(g, s, u) && Gathered(s, u, srcs + more, acc, pts)
  {
    PreservesTransitive(g, s, t, u);
    assert Union(s.pts, more) <= Union(t.pts, more);
    assert Union(s.pts, srcs + more) == Union(s.pts, srcs) + Union(s.pts, more);
    assert Union(t.pts, srcs) <= Union(u.pts, srcs);
    assert Union(u.pts, srcs + more) == Union(u.pts, srcs) + Union(u.pts, more);
  }

  lemma GatheredDirectEdge(g: SVFG, s: Snap, t: Snap, u: Snap, edges: seq<Edge>, i: nat, mid: set<NodeID>,
                           pts: set<NodeID>)
    requires g.WellFormed() && u.known <= g.items && i < |edges|
    requires Preserves(g, s, t) && Preserves(g, t, u)
    requires Gathered(s, t, DirectSrcsOf(g, edges[..i]), {}, mid)
    requires Gathered(t, u, DirectSrcsOf(g, [edges[i]]), mid, pts)
    ensures Preserves(g, s, u) && Gathered(s, u, DirectSrcsOf(g, edges[..i + 1]), {}, pts)
  {
    GatheredMore(g, s, t, u, DirectSrcsOf(g, edges[..i]), DirectSrcsOf(g, [edges[i]]), {}, mid, pts);
    DirectSrcsOneMore(g, edges, i);
  }

  lemma GatheredIndirectEdge(g: SVFG, o: NodeID, s: Snap, t: Snap, u: Snap, edges: seq<Edge>, i: nat,
                             acc: set<NodeID>, mid: set<NodeID>, pts: set<NodeID>)
    requires g.WellFormed() && u.known <= g.items && i < |edges|
    requires Preserves(g, s, t) && Preserves(g, t, u)
    requires Gathered(s, t, IndirectSrcsOf(o, edges[..i]), acc, mid)
    requires Gathered(t, u, IndirectSrcsOf(o, [edges[i]]), mid, pts)
    ensures Preserves(g, s, u) && Gathered(s, u, IndirectSrcsOf(o, edges[..i + 1]), acc, pts)
  {
    GatheredMore(g, s, t, u, IndirectSrcsOf(o, edges[..i]), IndirectSrcsOf(o, [edges[i]]), acc, mid, pts);
    IndirectSrcsOneMore(o, edges, i);
  }

  // What handling one target o of a store adds for item d, given all the targets.
  function TargetSrcs(g: SVFG, d: Item, targets: set<NodeID>, o: NodeID): set<Item>
    requires g.kind(d.loc).Store?
  {
    if o == d.cur then
      {g.DefItem(g.kind(d.loc).val)} + (if g.IsStrongUpdate(targets) then {} else g.IndirectSrcs(d.cur, d.loc))
    else
      g.IndirectSrcs(d.cur, d.loc)
  }

  function TargetsSrcs(g: SVFG, d: Item, targets: set<NodeID>, done: seq<NodeID>): set<Item>
    requires g.kind(d.loc).Store?
  {
    set o, s | o in done && s in TargetSrcs(g, d, targets, o) :: s
  }

  lemma AllTargetsSrcs(g: SVFG, d: Item, targets: set<NodeID>, order: seq<NodeID>)
    requires g.kind(d.loc).Store? && forall o :: o in order <==> o in targets
    ensures TargetsSrcs(g, d, targets, order) == g.StoreSrcs(d, targets)
  {
    forall x | x in g.StoreSrcs(d, targets) ensures x in TargetsSrcs(g, d, targets, order) {
      if d.cur in targets && x == g.DefItem(g.kind(d.loc).val) {
        assert x in TargetSrcs(g, d, targets, d.cur);
      } else {
        var p :| p in targets && (p != d.cur || !g.IsStrongUpdate(targets));
        assert x in TargetSrcs(g, d, targets, p);
      }
    }
  }

  lemma GatheredTarget(g: SVFG, d: Item, s: Snap, t: Snap, u: Snap, targets: set<NodeID>,
                       order: seq<NodeID>, i: nat, mid: set<NodeID>, pts: set<NodeID>)
    requires g.WellFormed() && u.known <= g.items && g.kind(d.loc).Store? && i < |order|
    requires Preserves(g, s, t) && Preserves(g, t, u)
    requires Gathered(s, t, TargetsSrcs(g, d, targets, order[..i]), {}, mid)
    requires Gathered(t, u, TargetSrcs(g, d, targets, order[i]), mid, pts)
    ensures Preserves(g, s, u) && Gathered(s, u, TargetsSrcs(g, d, targets, order[..i + 1]), {}, pts)
  {
    GatheredMore(g, s, t, u, TargetsSrcs(g, d, targets, order[..i]), TargetSrcs(g, d, targets, order[i]), {},
                 mid, pts);
    assert order[..i + 1] == order[..i] + [order[i]];
    assert TargetsSrcs(g, d, targets, order[..i + 1]) ==
           TargetsSrcs(g, d, targets, order[..i]) + TargetSrcs(g, d, targets, order[i]);
  }

  function ObjectsSrcs(g: SVFG, n: NodeID, done: seq<NodeID>): set<Item> {
    set o, s | o in done && s in g.IndirectSrcs(o, n) :: s
  }

  lemma GatheredObject(g: SVFG, n: NodeID, s: Snap, t: Snap, u: Snap,
                       order: seq<NodeID>, i: nat, mid: set<NodeID>, pts: set<NodeID>)
    requires g.WellFormed() && u.known <= g.items && i < |order|
    requires Preserves(g, s, t) && Preserves(g, t, u)
    requires Gathered(s, t, ObjectsSrcs(g, n, order[..i]), {}, mid)
    requires Gathered(t, u, g.IndirectSrcs(order[i], n), mid, pts)
    ensures Preserves(g, s, u) && Gathered(s, u, ObjectsSrcs(g, n, order[..i + 1]), {}, pts)
  {
    GatheredMore(g, s, t, u, ObjectsSrcs(g, n, order[..i]), g.IndirectSrcs(order[i], n), {}, mid, pts);
    assert order[..i + 1] == order[..i] + [order[i]];
    assert ObjectsSrcs(g, n, order[..i + 1]) == ObjectsSrcs(g, n, order[..i]) + g.IndirectSrcs(order[i], n);
  }

  // Nothing is gathered before the first target, and everything after the last.
  lemma AllTargets(g: SVFG, d: Item, s: Snap, targets: set<NodeID>, order: seq<NodeID>)
    requires g.kind(d.loc).Store? && forall o :: o in order <==> o in targets
    ensures Gathered(s, s, TargetsSrcs(g, d, targets, order[..0]), {}, {})
    ensures TargetsSrcs(g, d, targets, order[..|order|]) == g.StoreSrcs(d, targets)
  {
    assert order[..|order|] == order;
    AllTargetsSrcs(g, d, targets, order);
  }

  // What was gathered between s and t lies between the united sets of s and those of t.
  ghost predicate GathersFlow(g: SVFG, d: Item, s: Snap, t: Snap, pts: set<NodeID>) {
    g.Reads(d, s.pts) <= t.visited && Union(s.pts, g.Srcs(d, s.pts)) <= pts <= Union(t.pts, g.Srcs(d, t.pts))
  }

  // A load whose pointer was read first (s to t), and then every object it may point to.
  lemma LoadGathersFlow(g: SVFG, d: Item, s: Snap, t: Snap, u: Snap, targets: set<NodeID>, pts: set<NodeID>)
    requires g.WellFormed() && u.known <= g.items && g.kind(d.loc).Load? && g.kind(d.loc).isPointer
    requires Preserves(g, s, t) && Preserves(g, t, u)
    requires Gathered(s, t, {g.DefItem(g.kind(d.loc).ptr)}, {}, targets)
    requires Gathered(t, u, g.LoadSrcs(d.loc, targets), {}, pts)
    ensures Preserves(g, s, u) && GathersFlow(g, d, s, u, pts)
  {
    PreservesTransitive(g, s, t, u);
    var p := g.DefItem(g.kind(d.loc).ptr);
    PointerRead(s, t, u, p, targets);
    UnionMonotone(s.pts, t.pts, g.LoadSrcs(d.loc, At(s.pts, p)), g.LoadSrcs(d.loc, targets));
    UnionMonotone(u.pts, u.pts, g.LoadSrcs(d.loc, targets), g.LoadSrcs(d.loc, At(u.pts, p)));
  }

  lemma StoreGathersFlow(g: SVFG, d: Item, s: Snap, t: Snap, u: Snap, targets: set<NodeID>, pts: set<NodeID>)
    requires g.WellFormed() && u.known <= g.items && g.kind(d.loc).Store? && g.kind(d.loc).isPointer
    requires Preserves(g, s, t) && Preserves(g, t, u)
    requires Gathered(s, t, {g.DefItem(g.kind(d.loc).ptr)}, {}, targets)
    requires Gathered(t, u, g.StoreSrcs(d, targets), {}, pts)
    ensures Preserves(g, s, u) && GathersFlow(g, d, s, u, pts)
  {
    PreservesTransitive(g, s, t, u);
    var p := g.DefItem(g.kind(d.loc).ptr);
    PointerRead(s, t, u, p, targets);
    StoreSrcsMonotone(g, d, At(s.pts, p), targets);
    StoreSrcsMonotone(g, d, targets, At(u.pts, p));
    UnionMonotone(s.pts, t.pts, g.StoreSrcs(d, At(s.pts, p)), g.StoreSrcs(d, targets));
    UnionMonotone(u.pts, u.pts, g.StoreSrcs(d, targets), g.StoreSrcs(d, At(u.pts, p)));
  }

  lemma PointerRead(s: Snap, t: Snap, u: Snap, p: Item, targets: set<NodeID>)
    requires Gathered(s, t, {p}, {}, targets) && Grows(t, u)
    ensures At(s.pts, p) <= targets <= At(u.pts, p) && p in t.visited
  {
    assert At(s.pts, p) <= Union(s.pts, {p});
    assert Union(t.pts, {p}) <= At(t.pts, p) <= At(u.pts, p);
  }

  // Between s and t everything d's equation reads was visited, and pts lies between its
  // value under the sets of s and under those of t.
  ghost predicate Evaluates(g: SVFG, d: Item, s: Snap, t: Snap, pts: set<NodeID>) {
    g.Reads(d, s.pts) <= t.visited && g.Flow(d, s.pts) <= pts <= g.Flow(d, t.pts)
  }

  lemma GatheredEvaluates(g: SVFG, d: Item, s: Snap, t: Snap, pts: set<NodeID>)
    requires GathersFlow(g, d, s, t, pts) && (g.kind(d.loc).Load? || g.kind(d.loc).Store?)
    ensures Evaluates(g, d, s, t, pts)
  {
  }

  lemma DirectEvaluates(g: SVFG, d: Item, s: Snap, t: Snap, pts: set<NodeID>)
    requires Gathered(s, t, g.DirectSrcs(d.loc), {}, pts)
    ensures g.kind(d.loc).Copy? ==> Evaluates(g, d, s, t, pts)
    ensures g.kind(d.loc).Gep? ==> Evaluates(g, d, s, t, set o | o in pts :: g.GepTarget(d.loc, o))
  {
  }

  lemma IndirectEvaluates(g: SVFG, d: Item, s: Snap, t: Snap, pts: set<NodeID>)
    requires Gathered(s, t, g.IndirectSrcs(d.cur, d.loc), {}, pts) && g.kind(d.loc).MR?
    ensures Evaluates(g, d, s, t, pts)
  {
  }

  // Addresses are constant, and what copies no pointer has no points-to set.
  lemma NothingToRead(g: SVFG, d: Item, s: Snap)
    ensures match g.kind(d.loc)
            case Addr(base) => Evaluates(g, d, s, s, {g.AddrTarget(base)})
            case Load(_, isPointer) => !isPointer ==> Evaluates(g, d, s, s, {})
            case Store(_, _, isPointer) => !isPointer ==> Evaluates(g, d, s, s, {})
            case _ => true
  {
  }

  lemma EvaluatesLater(g: SVFG, d: Item, s: Snap, t: Snap, u: Snap, pts: set<NodeID>)
    requires Below(s.pts, t.pts) && Evaluates(g, d, t, u, pts)
    ensures Evaluates(g, d, s, u, pts)
  {
    FlowMonotone(g, d, s.pts, t.pts);
    SrcsMonotone(g, d, s.pts, t.pts);
  }

  // Merging `gathered` into d's set as of s would make d satisfy its equation.
  ghost predicate Covers(g: SVFG, d: Item, s: Snap, gathered: set<NodeID>) {
    (IsExempt(g, d, s) || g.Flow(d, s.pts) <= gathered + At(s.pts, d)) && g.Reads(d, s.pts) <= s.visited
  }

  // Evaluating d from s0 gathered a set that covers d's equation as of s0. Whatever nested
  // calls changed meanwhile, the set still covers it, or d was re-evaluated and is stable.
  lemma EvaluatedCovers(g: SVFG, d: Item, s0: Snap, s1: Snap, gathered: set<NodeID>)
    requires g.WellFormed() && d in g.items && d in s1.known
    requires Preserves(g, s0, s1) && !s1.exhausted
    requires Evaluates(g, d, s0, s1, gathered)
    ensures Covers(g, d, s1, gathered)
  {
    if !Stable(g, d, s1) { SameDepsSameFlow(g, d, s0, s1); }
  }

  // Gathering (s0 to s1) and then merging and recomputing (s1 to t) leaves d stable.
  lemma EvaluatedIsStable(g: SVFG, d: Item, s0: Snap, s1: Snap, t: Snap, gathered: set<NodeID>)
    requires g.WellFormed() && t.known <= g.items && d in s0.known
    requires Preserves(g, s0, s1) && Preserves(g, s1, t)
    requires Evaluates(g, d, s0, s1, gathered)
    requires t.exhausted || Stable(g, d, t) || !Covers(g, d, s1, gathered)
    ensures Preserves(g, s0, t) && (t.exhausted || Stable(g, d, t))
  {
    if !t.exhausted {
      EvaluatedCovers(g, d, s0, s1, gathered);
    }
    PreservesTransitive(g, s0, s1, t);
  }

  ghost function Visited(s: Snap, d: Item): Snap {
    s.(visited := s.visited + {d}, known := s.known + {d})
  }

  // Marking an unvisited item and then making it stable keeps what Preserves promises.
  lemma VisitedThenEvaluated(g: SVFG, d: Item, s: Snap, t: Snap)
    requires d !in s.visited && s.known <= s.visited + {d}
    requires Preserves(g, Visited(s, d), t) && (t.exhausted || Stable(g, d, t))
    ensures Preserves(g, s, t)
  {
    var s0 := Visited(s, d);
    assert t.visited == s.visited + t.known;
    assert t.known * s.visited <= s0.known - {d};
    forall y | y in s.known && SameDeps(g, y, s0, t) ensures SameDeps(g, y, s, t) {
    }
  }

  // Unless the budget ran out, every item known at s that some edge in `edges` makes
  // dependent on d is stable at t.
  ghost predicate Recomputed(g: SVFG, d: Item, edges: seq<Edge>, s: Snap, t: Snap) {
    t.exhausted ||
    forall ed, x {:trigger ed in edges, Stable(g, x, t)} {:trigger ed in edges, x in s.known} ::
      ed in edges && x in s.known && ed.dst == x.loc && g.Triggers(ed, x, d) ==> Stable(g, x, t)
  }

  lemma RecomputedOneMore(g: SVFG, d: Item, edges: seq<Edge>, ed: Edge, s: Snap, t: Snap, u: Snap)
    requires g.WellFormed() && u.known <= g.items
    requires Preserves(g, s, t) && Preserves(g, t, u)
    requires Recomputed(g, d, edges, s, t) && Recomputed(g, d, [ed], t, u)
    ensures Preserves(g, s, u) && Recomputed(g, d, edges + [ed], s, u)
  {
    PreservesTransitive(g, s, t, u);
    if !u.exhausted {
      forall e, x | e in edges + [ed] && x in s.known && e.dst == x.loc && g.Triggers(e, x, d) ensures Stable(g, x, u) {
        if e in edges {
          assert Stable(g, x, t);
          StableThrough(g, x, t, u);
        }
      }
    }
  }

  ghost predicate RecomputedItems(g: SVFG, d: Item, ed: Edge, done: seq<Item>, t: Snap) {
    t.exhausted ||
    forall x {:trigger Stable(g, x, t)} {:trigger x in done} | x in done && g.Triggers(ed, x, d) :: Stable(g, x, t)
  }

  lemma RecomputedOneItem(g: SVFG, d: Item, ed: Edge, order: seq<Item>, i: nat, s: Snap, t: Snap, u: Snap)
    requires g.WellFormed() && u.known <= g.items && i < |order| && forall x | x in order :: x in t.known
    requires Preserves(g, s, t) && Preserves(g, t, u)
    requires RecomputedItems(g, d, ed, order[..i], t) && RecomputedItems(g, d, ed, [order[i]], u)
    ensures Preserves(g, s, u) && RecomputedItems(g, d, ed, order[..i + 1], u)
  {
    PreservesTransitive(g, s, t, u);
    if !u.exhausted {
      forall y | y in order[..i] && g.Triggers(ed, y, d) ensures Stable(g, y, u) {
        StableThrough(g, y, t, u);
      }
    }
  }

  // `gathered` is merged into d's set. Where other items share d's cached set, they grow
  // along with it, but only exempt items may read those.
  ghost predicate MergedInto(g: SVFG, d: Item, gathered: set<NodeID>, s1: Snap, s2: Snap) {
    && s2 == s1.(pts := s2.pts) && Grows(s1, s2) && gathered <= At(s2.pts, d)
    && (gathered <= At(s1.pts, d) ==> At(s2.pts, d) == At(s1.pts, d))
    && (forall x, e | x in g.items && g.MayRead(x, e) :: e == d || IsExempt(g, x, s1) || At(s1.pts, e) == At(s2.pts, e))
  }

  // Merging `gathered` into d (s1 to s2) and then re-evaluating the dependents of d, if it
  // grew, (s2 to t) keeps what Preserves promises and makes a covered d stable.
  lemma MergedThenRecomputed(g: SVFG, d: Item, s1: Snap, s2: Snap, t: Snap, gathered: set<NodeID>)
    requires g.WellFormed() && t.known <= g.items && d in s1.known && s1.known <= s1.visited
    requires MergedInto(g, d, gathered, s1, s2)
    requires Preserves(g, s2, t)
    requires gathered <= At(s1.pts, d) || Recomputed(g, d, g.outEdges(d.loc), s2, t)
    ensures Preserves(g, s1, t)
    ensures t.exhausted || Stable(g, d, t) || !Covers(g, d, s1, gathered)
  {
    GrowsTransitive(s1, s2, t);
    if !t.exhausted {
      forall x | x in t.known ensures Stable(g, x, t) || (x in s1.known && SameDeps(g, x, s1, t)) {
        if !Stable(g, x, t) { MergeSparesOthers(g, d, s1, s2, t, gathered, x); }
      }
      if !Stable(g, d, t) {
        MergeSparesOthers(g, d, s1, s2, t, gathered, d);
        SameDepsSameFlow(g, d, s1, t);
        assert At(s1.pts, d) + gathered <= At(s2.pts, d) <= At(t.pts, d);
      }
    }
  }

  lemma MergeSparesOthers(g: SVFG, d: Item, s1: Snap, s2: Snap, t: Snap, gathered: set<NodeID>, x: Item)
    requires g.WellFormed() && x in t.known && x in g.items && !t.exhausted && !Stable(g, x, t)
    requires MergedInto(g, d, gathered, s1, s2)
    requires Preserves(g, s2, t)
    requires gathered <= At(s1.pts, d) || Recomputed(g, d, g.outEdges(d.loc), s2, t)
    ensures x in s1.known && SameDeps(g, x, s1, t)
  {
    assert x in s2.known && SameDeps(g, x, s2, t);
    if g.MayRead(x, d) {
      MayReadIsDependency(g, x, d);
      var ed :| ed in g.outEdges(d.loc) && ed.dst == x.loc && g.Triggers(ed, x, d);
      assert At(s2.pts, d) == At(s1.pts, d);
    }
  }

  predicate IsMin(s: set<NodeID>, x: NodeID) {
    x in s && forall y | y in s :: x <= y
  }

  // The elements of a points-to set in increasing order, as its iterator yields them.
  function Ascending(s: set<NodeID>): (order: seq<NodeID>)
    ensures forall o :: o in order <==> o in s
  {
    if s == {} then []
    else
      LeastElement(s);
      var x :| IsMin(s, x);
      [x] + Ascending(s - {x})
  }

  lemma LeastElement(s: set<NodeID>)
    requires s != {}
    ensures exists x :: IsMin(s, x)
  {
    var w :| w in s;
    var rest := s - {w};
    assert forall y | y in s :: y == w || y in rest;
    if rest == {} {
      assert IsMin(s, w);
    } else {
      LeastElement(rest);
      var x :| IsMin(rest, x);
      assert IsMin(s, if x <= w then x else w);
    }
  }

  // Lists a set's elements in some order, as iterating over it would.
  method Enumerate<T(==)>(s: set<T>) returns (order: seq<T>)
    ensures forall x :: x in order <==> x in s
    ensures forall i, j | 0 <= i < j < |order| :: order[i] != order[j]
  {
    order := [];
    var rest := s;
    while rest != {}
      invariant forall x :: x in s <==> x in rest || x in order
      invariant forall x | x in order :: x in s && x !in rest
      invariant forall i, j | 0 <= i < j < |order| :: order[i] != order[j]
    {
      var x :| x in rest;
      order, rest := order + [x], rest - {x};
    }
  }

  // ----- the termination measure -----

  type Fact = (Item, NodeID)

  ghost function Missing(g: SVFG, pts: PtsMap): set<Fact> {
    set d, o | d in g.items && o in g.objs && o !in At(pts, d) :: (d, o)
  }

  lemma GrowthShrinksMissing(g: SVFG, x: PtsMap, y: PtsMap, d: Item, gathered: set<NodeID>) returns (fact: Fact)
    requires d in g.items && gathered <= g.objs && !(gathered <= At(x, d))
    requires Below(x, y) && gathered <= At(y, d)
    ensures fact in Missing(g, x) && Missing(g, y) <= Missing(g, x) - {fact}
  {
    var o :| o in gathered && o !in At(x, d);
    fact := (d, o);
  }

  // ----- completed items have the least solution -----

  ghost predicate IsBound(g: SVFG, bound: PtsMap) {
    g.IsClosed(bound) && forall d :: At(bound, d) <= g.objs
  }

  // Every completed item reads only completed items and satisfies its equation, unless that
  // is in doubt, or it carries its seed.
  ghost predicate Settled(g: SVFG, seeds: PtsMap, pts: PtsMap, done: set<Item>, doubtful: set<Item>) {
    && done <= g.items && doubtful <= done
    && (forall d {:trigger g.Flow(d, pts)} {:trigger g.Reads(d, pts)} | d in done ::
          ((d in doubtful || g.Flow(d, pts) <= At(pts, d)) && g.Reads(d, pts) <= done) || d in seeds)
    && (forall d | d in seeds :: d in done && seeds[d] <= At(pts, d))
  }

  ghost predicate Satisfied(g: SVFG, pts: PtsMap, items: set<Item>) {
    forall d {:trigger g.Flow(d, pts)} | d in items :: g.Flow(d, pts) <= At(pts, d)
  }

  // The fallback assigns every seeded item its seed and is itself a solution from above.
  ghost predicate IsFallback(g: SVFG, seeds: PtsMap, fallback: PtsMap) {
    && IsBound(g, fallback)
    && (forall d | d in seeds :: d in g.items && seeds[d] == At(fallback, d))
  }

  lemma SeedsBelowFallback(g: SVFG, seeds: PtsMap, fallback: PtsMap)
    requires IsFallback(g, seeds, fallback)
    ensures g.IsPreFix(seeds, fallback) && SeedsOk(g, seeds)
  {
    assert Below(seeds, fallback);
  }

  ghost function Overlay(g: SVFG, pts: PtsMap, done: set<Item>, least: PtsMap): PtsMap {
    map d | d in g.items :: if d in done then At(pts, d) else At(least, d)
  }

  // Overlaying the completed caches on the least solution satisfies every equation again.
  lemma OverlaySatisfies(g: SVFG, seeds: PtsMap, fallback: PtsMap, l: PtsMap, pts: PtsMap, done: set<Item>, d: Item)
    requires g.WellFormed() && Settled(g, seeds, pts, done, {}) && Below(pts, l)
    requires IsFallback(g, seeds, fallback) && g.IsLeast(seeds, l) && d in g.items
    ensures var y := Overlay(g, pts, done, l); g.Flow(d, y) <= At(y, d)
  {
    var y := Overlay(g, pts, done, l);
    assert Below(y, l);
    if d in seeds {
      SeedsBelowFallback(g, seeds, fallback);
      BelowTransitive(y, l, fallback);
      FlowMonotone(g, d, y, fallback);
    } else if d in done {
      ReadsDetermineFlow(g, d, pts, y);
    } else {
      FlowMonotone(g, d, y, l);
    }
  }

  lemma BelowTransitive(x: PtsMap, y: PtsMap, z: PtsMap)
    requires Below(x, y) && Below(y, z)
    ensures Below(x, z)
  {
    forall d ensures At(x, d) <= At(z, d) {
      assert At(x, d) <= At(y, d) <= At(z, d);
    }
  }

  // Completed caches without doubts are exactly the least solution.
  lemma SettledIsExact(g: SVFG, seeds: PtsMap, fallback: PtsMap, l: PtsMap, pts: PtsMap, done: set<Item>)
    requires g.WellFormed() && Settled(g, seeds, pts, done, {}) && Below(pts, l)
    requires IsFallback(g, seeds, fallback) && g.IsLeast(seeds, l)
    ensures forall d | d in done :: At(pts, d) == At(l, d)
  {
    var y := Overlay(g, pts, done, l);
    forall d | d in g.items ensures g.Flow(d, y) <= At(y, d) {
      OverlaySatisfies(g, seeds, fallback, l, pts, done, d);
    }
    assert Below(seeds, y) by { SeedsBelowFallback(g, seeds, fallback); }
    assert g.IsPreFix(seeds, y);
    forall d | d in done ensures At(pts, d) == At(l, d) {
      assert At(l, d) <= At(y, d) == At(pts, d);
    }
  }

  // The exactness theorem: completed caches are exactly the least solution if and only if
  // the items in doubt satisfy their equations.
  lemma ExactIffSatisfied(g: SVFG, seeds: PtsMap, fallback: PtsMap, l: PtsMap, pts: PtsMap, done: set<Item>,
                          doubtful: set<Item>)
    requires g.WellFormed() && Settled(g, seeds, pts, done, doubtful) && Below(pts, l)
    requires IsFallback(g, seeds, fallback) && g.IsLeast(seeds, l)
    ensures (forall d | d in done :: At(pts, d) == At(l, d)) <==> Satisfied(g, pts, doubtful)
  {
    if Satisfied(g, pts, doubtful) {
      SettledIsExact(g, seeds, fallback, l, pts, done);
    }
    if forall d | d in done :: At(pts, d) == At(l, d) {
      forall d | d in doubtful ensures g.Flow(d, pts) <= At(pts, d) {
        FlowMonotone(g, d, pts, l);
      }
    }
  }

  // A query that stays within budget completes everything it visited, and leaves in doubt
  // only what was exempt.
  lemma QuerySettles(g: SVFG, seeds: PtsMap, doubtful: set<Item>, s: Snap, t: Snap)
    requires g.WellFormed() && t.known <= g.items
    requires Settled(g, seeds, s.pts, s.visited, doubtful) && s.known == {}
    requires Preserves(g, s, t) && !t.exhausted
    ensures Settled(g, seeds, t.pts, t.visited, doubtful + t.exempt * t.known)
  {
    forall d | d in t.visited
      ensures ((d in doubtful + t.exempt * t.known || g.Flow(d, t.pts) <= At(t.pts, d)) &&
               g.Reads(d, t.pts) <= t.visited) || d in seeds
    {
      if d in s.visited {
        CompletedUntouched(g, seeds, doubtful, s, t, d);
      } else {
        assert Stable(g, d, t);
      }
    }
    forall d | d in seeds ensures seeds[d] <= At(t.pts, d) {
      assert At(s.pts, d) <= At(t.pts, d);
    }
  }

  // A query never touches what earlier queries completed.
  lemma CompletedUntouched(g: SVFG, seeds: PtsMap, doubtful: set<Item>, s: Snap, t: Snap, d: Item)
    requires Settled(g, seeds, s.pts, s.visited, doubtful) && s.known == {} && d in s.visited
    requires Grows(s, t)
    ensures At(s.pts, d) == At(t.pts, d)
    ensures d in seeds || ((d in doubtful || g.Flow(d, t.pts) <= At(t.pts, d)) && g.Reads(d, t.pts) <= s.visited)
  {
    if d !in seeds {
      ReadsDetermineFlow(g, d, s.pts, t.pts);
    }
  }

  // A query that ran out of budget completes only its own item d, by giving it a seed.
  lemma ForcedItemSettles(g: SVFG, seeds: PtsMap, doubtful: set<Item>, s: Snap, t: Snap, d: Item, seed: set<NodeID>)
    requires g.WellFormed() && d in g.items && d !in s.visited
    requires Settled(g, seeds, s.pts, s.visited, doubtful) && s.known == {}
    requires Grows(s, t) && seed <= At(t.pts, d)
    ensures Settled(g, seeds[d := seed], t.pts, s.visited + {d}, doubtful)
  {
    var done := s.visited + {d};
    forall x | x in done
      ensures ((x in doubtful || g.Flow(x, t.pts) <= At(t.pts, x)) && g.Reads(x, t.pts) <= done) ||
              x in seeds[d := seed]
    {
      if x != d { CompletedUntouched(g, seeds, doubtful, s, t, x); }
    }
    forall x | x in seeds && x != d ensures seeds[x] <= At(t.pts, x) {
      assert At(s.pts, x) <= At(t.pts, x);
    }
  }
}
