/** Why asking in order matters when a set is kept per variable: on graphs of address, copy and
    gep nodes the evaluation is written out as a function, and three short runs go wrong. */
module PerVariableCache {
  import opened ValueFlowGraph
  import opened QueryOrder

  // The solver's state. An item of such a graph is its node.
  datatype State = State(visited: set<NodeID>, known: set<NodeID>, sets: map<NodeID, set<NodeID>>)

  const FRESH := State({}, {}, map[])

  function Cached(s: State, v: NodeID): set<NodeID> {
    if v in s.sets then s.sets[v] else {}
  }

  // Evaluate the item at node n, unless it is marked: gather its set, merge it into the set of
  // its variable and, if that grows, re-evaluate what depends on n. The depth bounds the
  // nesting of evaluations.
  function Find(g: SVFG, n: NodeID, s: State, depth: nat): State
    decreases depth, 0
  {
    if depth == 0 || n in s.visited then s
    else
      var marked := s.(visited := s.visited + {n}, known := s.known + {n});
      if g.kind(n).Addr? then Merge(g, n, {g.AddrTarget(g.kind(n).base)}, marked, depth - 1)
      else
        var (found, t) := Gather(g, g.inEdges(n), {}, marked, depth - 1);
        Merge(g, n, Targets(g, n, found), t, depth - 1)
  }

  // What a node makes of the objects gathered: a gep selects a field of each.
  function Targets(g: SVFG, n: NodeID, found: set<NodeID>): set<NodeID> {
    if g.kind(n).Gep? then set o | o in found :: g.GepTarget(n, o) else found
  }

  function Gather(g: SVFG, edges: seq<Edge>, acc: set<NodeID>, s: State, depth: nat): (set<NodeID>, State)
    decreases depth, 1 + |edges|
  {
    if edges == [] then (acc, s)
    else
      var t := Find(g, edges[0].src, s, depth);
      Gather(g, edges[1..], acc + Cached(t, g.lhs(edges[0].src)), t, depth)
  }

  function Merge(g: SVFG, n: NodeID, found: set<NodeID>, s: State, depth: nat): State
    decreases depth, 2 + |g.outEdges(n)|
  {
    var v := g.lhs(n);
    if found <= Cached(s, v) then s
    else ReCompute(g, g.outEdges(n), s.(sets := s.sets[v := Cached(s, v) + found]), depth)
  }

  function ReCompute(g: SVFG, edges: seq<Edge>, s: State, depth: nat): State
    decreases depth, 1 + |edges|
  {
    if edges == [] then s
    else
      var x := edges[0].dst;
      ReCompute(g, edges[1..], if x in s.known then Find(g, x, s.(visited := s.visited - {x}), depth) else s, depth)
  }

  // Answer queries for the variables one after another; the marks and sets stay.
  function Ask(g: SVFG, queries: seq<NodeID>, s: State, depth: nat): State {
    if queries == [] then s
    else Ask(g, queries[1..], Find(g, g.def(queries[0]), s.(known := {}), depth), depth)
  }

  function Answer(g: SVFG, queries: seq<NodeID>, v: NodeID, depth: nat): set<NodeID> {
    Cached(Ask(g, queries, FRESH, depth), v)
  }

  lemma GatherTwo(g: SVFG, a: Edge, b: Edge, s: State, depth: nat)
    ensures var t := Find(g, a.src, s, depth); var u := Find(g, b.src, t, depth);
      Gather(g, [a, b], {}, s, depth) == (Cached(t, g.lhs(a.src)) + Cached(u, g.lhs(b.src)), u)
  {
    assert [a, b][1..] == [b] && [b][1..] == [];
    var t := Find(g, a.src, s, depth);
    var u := Find(g, b.src, t, depth);
    assert {} + Cached(t, g.lhs(a.src)) == Cached(t, g.lhs(a.src));
    assert Gather(g, [b], Cached(t, g.lhs(a.src)), t, depth) ==
           (Cached(t, g.lhs(a.src)) + Cached(u, g.lhs(b.src)), u);
  }

  lemma GatherThree(g: SVFG, a: Edge, b: Edge, c: Edge, s: State, depth: nat)
    ensures var t := Find(g, a.src, s, depth); var u := Find(g, b.src, t, depth); var w := Find(g, c.src, u, depth);
      Gather(g, [a, b, c], {}, s, depth) ==
      (Cached(t, g.lhs(a.src)) + Cached(u, g.lhs(b.src)) + Cached(w, g.lhs(c.src)), w)
  {
    assert [a, b, c][1..] == [b, c] && [b, c][1..] == [c] && [c][1..] == [];
    var t := Find(g, a.src, s, depth);
    var u := Find(g, b.src, t, depth);
    var w := Find(g, c.src, u, depth);
    var x, y := Cached(t, g.lhs(a.src)), Cached(u, g.lhs(b.src));
    assert {} + x == x;
    assert Gather(g, [c], x + y, u, depth) == (x + y + Cached(w, g.lhs(c.src)), w);
    assert Gather(g, [b, c], x, t, depth) == Gather(g, [c], x + y, u, depth);
  }

  lemma GatherOne(g: SVFG, a: Edge, s: State, depth: nat)
    ensures var t := Find(g, a.src, s, depth);
      Gather(g, [a], {}, s, depth) == (Cached(t, g.lhs(a.src)), t)
  {
    assert [a][1..] == [];
    var t := Find(g, a.src, s, depth);
    assert {} + Cached(t, g.lhs(a.src)) == Cached(t, g.lhs(a.src));
  }

  lemma ReComputeOne(g: SVFG, a: Edge, s: State, depth: nat)
    requires a.dst in s.known
    ensures ReCompute(g, [a], s, depth) == Find(g, a.dst, s.(visited := s.visited - {a.dst}), depth)
  {
    assert [a][1..] == [];
  }

  lemma ReComputeTwo(g: SVFG, a: Edge, b: Edge, s: State, depth: nat)
    requires a.dst in s.known
    ensures var t := Find(g, a.dst, s.(visited := s.visited - {a.dst}), depth);
      b.dst in t.known ==>
        ReCompute(g, [a, b], s, depth) == Find(g, b.dst, t.(visited := t.visited - {b.dst}), depth)
  {
    assert [a, b][1..] == [b];
    var t := Find(g, a.dst, s.(visited := s.visited - {a.dst}), depth);
    if b.dst in t.known { ReComputeOne(g, b, t, depth); }
  }

  lemma AskOne(g: SVFG, v: NodeID, s: State, depth: nat)
    ensures Ask(g, [v], s, depth) == Find(g, g.def(v), s.(known := {}), depth)
  {
    assert [v][1..] == [];
  }

  lemma AskTwo(g: SVFG, v: NodeID, w: NodeID, s: State, depth: nat)
    ensures var t := Find(g, g.def(v), s.(known := {}), depth);
      Ask(g, [v, w], s, depth) == Find(g, g.def(w), t.(known := {}), depth)
  {
    assert [v, w][1..] == [w];
    AskOne(g, w, Find(g, g.def(v), s.(known := {}), depth), depth);
  }

  lemma FindIs(g: SVFG, n: NodeID, s: State, found: set<NodeID>, t: State, k: nat)
    requires k > 0 && n !in s.visited && !g.kind(n).Addr?
    requires Gather(g, g.inEdges(n), {}, s.(visited := s.visited + {n}, known := s.known + {n}), k - 1) == (found, t)
    ensures Find(g, n, s, k) == Merge(g, n, Targets(g, n, found), t, k - 1)
  {
  }

  lemma FindAddress(g: SVFG, n: NodeID, s: State, k: nat)
    requires k > 0 && n !in s.visited && g.kind(n).Addr?
    ensures var marked := s.(visited := s.visited + {n}, known := s.known + {n});
      Find(g, n, s, k) == Merge(g, n, {g.AddrTarget(g.kind(n).base)}, marked, k - 1)
  {
  }

  lemma Grown(sets: map<NodeID, set<NodeID>>, v: NodeID)
    requires v !in sets
    ensures var s := State({}, {}, sets); sets[v := Cached(s, v) + {100}] == sets[v := {100}]
  {
    assert {} + {100} == {100};
  }

  // ----- a relay on a cycle -----

  // A function passes variable 11, which is its parameter 12 or the address of object 100, on
  // to itself. Node 2 is the actual parameter of the call.
  ghost predicate IsRecursion(g: SVFG) {
    && g.nodes == {0, 1, 2, 3} && g.objs == {100} && g.fieldInsensitive == {}
    && g.kind(0) == Addr(100) && g.kind(1) == g.kind(2) == g.kind(3) == Copy
    && g.lhs(0) == 10 && g.lhs(1) == g.lhs(2) == 11 && g.lhs(3) == 12
    && g.def(10) == 0 && g.def(11) == 1 && g.def(12) == 3
    && g.inEdges(0) == [] && g.inEdges(1) == [Direct(0, 1), Direct(3, 1)]
    && g.inEdges(2) == [Direct(1, 2)] && g.inEdges(3) == [Direct(2, 3)]
    && g.outEdges(0) == [Direct(0, 1)] && g.outEdges(1) == [Direct(1, 2)]
    && g.outEdges(2) == [Direct(2, 3)] && g.outEdges(3) == [Direct(3, 1)]
  }

  const ALL := {0, 1, 2, 3}
  const ADDRESS := map[10 := {100}]
  const BOTH := map[10 := {100}, 11 := {100}]

  // Node 3 is visited while the set of 11 is still empty.
  lemma EarlyRelay(g: SVFG, k: nat)
    requires IsRecursion(g) && k >= 3
    ensures Find(g, 3, State({0, 1}, {0, 1}, ADDRESS), k) == State(ALL, ALL, ADDRESS)
  {
    var s, t := State({0, 1, 3}, {0, 1, 3}, ADDRESS), State(ALL, ALL, ADDRESS);
    assert {0, 1} + {3} == {0, 1, 3} && {0, 1, 3} + {2} == ALL;
    GatherOne(g, Direct(1, 2), t, k - 2);
    assert Find(g, 2, s, k - 1) == t;
    GatherOne(g, Direct(2, 3), s, k - 1);
  }

  // The relay has the set of 11 already, so that re-evaluating it goes no further.
  lemma RelayStops(g: SVFG, k: nat)
    requires IsRecursion(g) && k >= 2
    ensures Find(g, 2, State({0, 1, 3}, ALL, BOTH), k) == State(ALL, ALL, BOTH)
  {
    assert {0, 1, 3} + {2} == ALL && ALL + {2} == ALL;
    GatherOne(g, Direct(1, 2), State(ALL, ALL, BOTH), k - 1);
  }

  // The set of 11 grows, with only the relay to be told.
  lemma DefinitionGrows(g: SVFG, k: nat)
    requires IsRecursion(g) && k >= 2
    ensures Merge(g, 1, {100}, State(ALL, ALL, ADDRESS), k) == State(ALL, ALL, BOTH)
  {
    var t := State(ALL, ALL, BOTH);
    Grown(ADDRESS, 11);
    assert ADDRESS[11 := {100}] == BOTH;
    assert ALL - {2} == {0, 1, 3};
    ReComputeOne(g, Direct(1, 2), t, k);
    RelayStops(g, k);
  }

  lemma ReadsBoth(g: SVFG, s: State, k: nat)
    requires IsRecursion(g) && 0 in s.visited && Cached(s, 10) == {100}
    ensures var t := Find(g, 3, s, k);
      Cached(t, 12) <= {100} ==> Gather(g, g.inEdges(1), {}, s, k) == ({100}, t)
  {
    GatherTwo(g, Direct(0, 1), Direct(3, 1), s, k);
    var t := Find(g, 3, s, k);
    assert Cached(t, 12) <= {100} ==> {100} + Cached(t, 12) == {100};
  }

  // The definition is evaluated again while it is being evaluated.
  lemma DefinitionAgain(g: SVFG, k: nat)
    requires IsRecursion(g) && k >= 4
    ensures Find(g, 1, State({0}, {0, 1}, ADDRESS), k) == State(ALL, ALL, BOTH)
  {
    assert {0} + {1} == {0, 1} && {0, 1} + {1} == {0, 1};
    EarlyRelay(g, k - 1);
    ReadsBoth(g, State({0, 1}, {0, 1}, ADDRESS), k - 1);
    DefinitionGrows(g, k - 1);
  }

  lemma AddressFirst(g: SVFG, k: nat)
    requires IsRecursion(g) && k >= 5
    ensures Find(g, 0, State({1}, {1}, map[]), k) == State(ALL, ALL, BOTH)
  {
    var t := State({0, 1}, {0, 1}, ADDRESS);
    assert {1} + {0} == {0, 1} && {0, 1} - {1} == {0};
    Grown(map[], 10);
    assert map[][10 := {100}] == ADDRESS;
    ReComputeOne(g, Direct(0, 1), t, k - 1);
    DefinitionAgain(g, k - 1);
  }

  // Asked first for 11, the solver completes all nodes and leaves the set of 12 empty.
  lemma AskDefinition(g: SVFG, k: nat)
    requires IsRecursion(g) && k >= 6
    ensures Find(g, 1, FRESH, k) == State(ALL, ALL, BOTH)
  {
    var s, t := State({1}, {1}, map[]), State(ALL, ALL, BOTH);
    assert {} + {1} == {1};
    AddressFirst(g, k - 1);
    GatherTwo(g, Direct(0, 1), Direct(3, 1), s, k - 1);
    assert {100} + {} == {100};
  }

  // Asked for 12 first, it evaluates the relay before the definition has a set to share.
  lemma AddressLast(g: SVFG, k: nat)
    requires IsRecursion(g) && k >= 5
    ensures Find(g, 0, State({1, 2, 3}, {1, 2, 3}, map[]), k) == State(ALL, ALL, BOTH)
  {
    var s, t := State(ALL, ALL, ADDRESS), State({0, 2, 3}, ALL, ADDRESS);
    assert {1, 2, 3} + {0} == ALL && ALL - {1} == {0, 2, 3} && {0, 2, 3} + {1} == ALL && ALL + {1} == ALL;
    Grown(map[], 10);
    assert map[][10 := {100}] == ADDRESS;
    ReComputeOne(g, Direct(0, 1), s, k - 1);
    ReadsBoth(g, s, k - 2);
    DefinitionGrows(g, k - 2);
    assert Find(g, 1, t, k - 1) == State(ALL, ALL, BOTH);
  }

  lemma DefinitionLast(g: SVFG, k: nat)
    requires IsRecursion(g) && k >= 6
    ensures Find(g, 1, State({2, 3}, {2, 3}, map[]), k) == State(ALL, ALL, BOTH)
  {
    var s, t := State({1, 2, 3}, {1, 2, 3}, map[]), State(ALL, ALL, BOTH);
    assert {2, 3} + {1} == {1, 2, 3};
    AddressLast(g, k - 1);
    GatherTwo(g, Direct(0, 1), Direct(3, 1), s, k - 1);
    assert {100} + {} == {100};
  }

  const THREE := map[10 := {100}, 11 := {100}, 12 := {100}]

  lemma ParameterGrows(g: SVFG, k: nat)
    requires IsRecursion(g) && k >= 2
    ensures Merge(g, 3, {100}, State(ALL, ALL, BOTH), k) == State(ALL, ALL, THREE)
  {
    var s, t := State({0, 2, 3}, ALL, THREE), State(ALL, ALL, THREE);
    Grown(BOTH, 12);
    assert BOTH[12 := {100}] == THREE;
    assert ALL - {1} == {0, 2, 3} && {0, 2, 3} + {1} == ALL && ALL + {1} == ALL;
    ReComputeOne(g, Direct(3, 1), t, k);
    ReadsBoth(g, t, k - 1);
    assert Find(g, 1, s, k) == t;
  }

  lemma AskParameter(g: SVFG, k: nat)
    requires IsRecursion(g) && k >= 8
    ensures Find(g, 3, FRESH, k) == State(ALL, ALL, THREE)
  {
    var s, t, u := State({3}, {3}, map[]), State({2, 3}, {2, 3}, map[]), State(ALL, ALL, BOTH);
    assert {} + {3} == {3} && {3} + {2} == {2, 3};
    DefinitionLast(g, k - 2);
    GatherOne(g, Direct(1, 2), t, k - 2);
    assert Find(g, 2, s, k - 1) == u;
    GatherOne(g, Direct(2, 3), s, k - 1);
    ParameterGrows(g, k - 1);
  }

  // The answer for 12 depends on what was asked before: asked after 11 it is empty, and asked
  // first it is the least solution's {100}.
  lemma AnswerDependsOnOrder(g: SVFG, depth: nat, l: PtsMap)
    requires IsRecursion(g) && g.WellFormed() && g.IsLeast(map[], l) && depth >= 8
    ensures Answer(g, [11, 12], 12, depth) == {}
    ensures Answer(g, [12], 12, depth) == {100}
    ensures 100 in At(l, g.DefItem(12))
  {
    AskDefinition(g, depth);
    AskParameter(g, depth);
    AskTwo(g, 11, 12, FRESH, depth);
    AskOne(g, 12, FRESH, depth);
    ParameterPointsTo(g, l);
  }

  lemma ParameterPointsTo(g: SVFG, l: PtsMap)
    requires IsRecursion(g) && g.WellFormed() && g.IsLeast(map[], l)
    ensures 100 in At(l, g.DefItem(12))
  {
    LeastPassesOn(g, l, Direct(0, 1));
    LeastPassesOn(g, l, Direct(1, 2));
    LeastPassesOn(g, l, Direct(2, 3));
    assert g.IsItem(Item(10, 0)) && 100 in g.Flow(Item(10, 0), l);
  }

  // In a solution what is at the source of a direct edge into a copy is also at its end.
  lemma LeastPassesOn(g: SVFG, l: PtsMap, e: Edge)
    requires g.WellFormed() && g.IsClosed(l) && e.Direct? && e.dst in g.nodes && e in g.inEdges(e.dst)
    requires g.kind(e.dst).Copy?
    ensures At(l, Item(g.lhs(e.src), e.src)) <= At(l, Item(g.lhs(e.dst), e.dst))
  {
    var d := Item(g.lhs(e.dst), e.dst);
    assert g.IsItem(d);
    assert Item(g.lhs(e.src), e.src) in g.DirectSrcs(e.dst);
    assert At(l, Item(g.lhs(e.src), e.src)) <= g.Flow(d, l);
  }

  // ----- a relay on no cycle -----

  // Variable 13 at node 0 is the address of object 100, variable 11, which is that address
  // too, or the parameter 12 that 11 is passed to by the actual parameter at node 4.
  ghost predicate IsAcyclic(g: SVFG) {
    && g.nodes == {0, 1, 2, 3, 4} && g.objs == {100} && g.fieldInsensitive == {}
    && g.kind(0) == g.kind(1) == g.kind(3) == g.kind(4) == Copy && g.kind(2) == Addr(100)
    && g.lhs(0) == 13 && g.lhs(1) == g.lhs(4) == 11 && g.lhs(2) == 10 && g.lhs(3) == 12
    && g.def(10) == 2 && g.def(11) == 1 && g.def(12) == 3 && g.def(13) == 0
    && g.inEdges(0) == [Direct(1, 0), Direct(2, 0), Direct(3, 0)] && g.inEdges(1) == [Direct(2, 1)]
    && g.inEdges(2) == [] && g.inEdges(3) == [Direct(4, 3)] && g.inEdges(4) == [Direct(1, 4)]
    && g.outEdges(0) == [] && g.outEdges(1) == [Direct(1, 0), Direct(1, 4)]
    && g.outEdges(2) == [Direct(2, 0), Direct(2, 1)] && g.outEdges(3) == [Direct(3, 0)]
    && g.outEdges(4) == [Direct(4, 3)] && g.funPtrs(0) == g.funPtrs(1) == g.funPtrs(2) == []
  }

  const FIVE := {0, 1, 2, 3, 4}
  const JOINED := map[10 := {100}, 13 := {100}]
  const MOST := map[10 := {100}, 13 := {100}, 11 := {100}]

  lemma ParameterTooEarly(g: SVFG, k: nat)
    requires IsAcyclic(g) && k >= 3
    ensures Find(g, 3, State({0, 1, 2}, {0, 1, 2}, ADDRESS), k) == State(FIVE, FIVE, ADDRESS)
  {
    var s, t := State({0, 1, 2, 3}, {0, 1, 2, 3}, ADDRESS), State(FIVE, FIVE, ADDRESS);
    assert {0, 1, 2} + {3} == {0, 1, 2, 3} && {0, 1, 2, 3} + {4} == FIVE;
    GatherOne(g, Direct(1, 4), t, k - 2);
    assert Find(g, 4, s, k - 1) == t;
    GatherOne(g, Direct(4, 3), s, k - 1);
  }

  lemma ReadsTooEarly(g: SVFG, k: nat)
    requires IsAcyclic(g) && k >= 3
    ensures Gather(g, g.inEdges(0), {}, State({0, 1, 2}, {0, 1, 2}, ADDRESS), k) == ({100}, State(FIVE, FIVE, ADDRESS))
  {
    ParameterTooEarly(g, k);
    GatherThree(g, Direct(1, 0), Direct(2, 0), Direct(3, 0), State({0, 1, 2}, {0, 1, 2}, ADDRESS), k);
    assert {} + {100} + {} == {100};
  }

  // Told that the address grew, node 0 reads the parameter before node 1 is told.
  lemma JoinedTooEarly(g: SVFG, k: nat)
    requires IsAcyclic(g) && k >= 4
    ensures Find(g, 0, State({1, 2}, {0, 1, 2}, ADDRESS), k) == State(FIVE, FIVE, JOINED)
  {
    assert {1, 2} + {0} == {0, 1, 2} && {0, 1, 2} + {0} == {0, 1, 2};
    ReadsTooEarly(g, k - 1);
    JoinedGrows(g, k - 1);
  }

  lemma JoinedGrows(g: SVFG, k: nat)
    requires IsAcyclic(g)
    ensures Merge(g, 0, {100}, State(FIVE, FIVE, ADDRESS), k) == State(FIVE, FIVE, JOINED)
  {
    Grown(ADDRESS, 13);
    assert ADDRESS[13 := {100}] == JOINED;
  }

  lemma NothingNew(g: SVFG, k: nat)
    requires IsAcyclic(g) && k >= 2
    ensures Find(g, 0, State({1, 2, 3, 4}, FIVE, MOST), k) == State(FIVE, FIVE, MOST)
    ensures Find(g, 4, State({0, 1, 2, 3}, FIVE, MOST), k) == State(FIVE, FIVE, MOST)
  {
    var t := State(FIVE, FIVE, MOST);
    assert {1, 2, 3, 4} + {0} == FIVE && {0, 1, 2, 3} + {4} == FIVE && FIVE + {0} == FIVE && FIVE + {4} == FIVE;
    GatherThree(g, Direct(1, 0), Direct(2, 0), Direct(3, 0), t, k - 1);
    assert {100} + {100} + {} == {100};
    GatherOne(g, Direct(1, 4), t, k - 1);
  }

  lemma VariableGrows(g: SVFG, k: nat)
    requires IsAcyclic(g) && k >= 4
    ensures Find(g, 1, State({0, 2, 3, 4}, FIVE, JOINED), k) == State(FIVE, FIVE, MOST)
  {
    var s, t := State(FIVE, FIVE, JOINED), State(FIVE, FIVE, MOST);
    assert {0, 2, 3, 4} + {1} == FIVE && FIVE + {1} == FIVE;
    GatherOne(g, Direct(2, 1), s, k - 1);
    Grown(JOINED, 11);
    assert JOINED[11 := {100}] == MOST;
    assert FIVE - {0} == {1, 2, 3, 4} && FIVE - {4} == {0, 1, 2, 3};
    NothingNew(g, k - 1);
    ReComputeTwo(g, Direct(1, 0), Direct(1, 4), t, k - 1);
    assert Merge(g, 1, {100}, s, k - 1) == t;
  }

  lemma AddressGrows(g: SVFG, k: nat)
    requires IsAcyclic(g) && k >= 5
    ensures Find(g, 2, State({0, 1}, {0, 1}, map[]), k) == State(FIVE, FIVE, MOST)
  {
    var s := State({0, 1, 2}, {0, 1, 2}, ADDRESS);
    assert {0, 1} + {2} == {0, 1, 2} && {0, 1, 2} - {0} == {1, 2} && FIVE - {1} == {0, 2, 3, 4};
    Grown(map[], 10);
    assert map[][10 := {100}] == ADDRESS;
    JoinedTooEarly(g, k - 1);
    VariableGrows(g, k - 1);
    ReComputeTwo(g, Direct(2, 0), Direct(2, 1), s, k - 1);
  }

  lemma AskJoined(g: SVFG, k: nat)
    requires IsAcyclic(g) && k >= 7
    ensures Find(g, 0, FRESH, k) == State(FIVE, FIVE, MOST)
  {
    var r, s, t := State({0}, {0}, map[]), State({0, 1}, {0, 1}, map[]), State(FIVE, FIVE, MOST);
    assert {} + {0} == {0} && {0} + {1} == {0, 1};
    AddressGrows(g, k - 2);
    GatherOne(g, Direct(2, 1), s, k - 2);
    assert Find(g, 1, r, k - 1) == t;
    GatherThree(g, Direct(1, 0), Direct(2, 0), Direct(3, 0), r, k - 1);
    assert {100} + {100} + {} == {100};
  }

  // That no node lies on a cycle does not help: asked after 13, the answer for 12 is empty.
  lemma AcyclicIsNotEnough(g: SVFG, depth: nat, l: PtsMap)
    requires IsAcyclic(g) && g.WellFormed() && g.IsLeast(map[], l) && depth >= 7
    ensures Answer(g, [13, 12], 12, depth) == {} && 100 in At(l, g.DefItem(12))
    ensures forall n, e | n in g.nodes && e in g.inEdges(n) :: Rank(e.src) < Rank(n)
  {
    AskJoined(g, depth);
    AskTwo(g, 13, 12, FRESH, depth);
    PassedOn(g, l);
    EdgesAscend(g);
  }

  lemma PassedOn(g: SVFG, l: PtsMap)
    requires IsAcyclic(g) && g.WellFormed() && g.IsLeast(map[], l)
    ensures 100 in At(l, g.DefItem(12))
  {
    LeastPassesOn(g, l, Direct(2, 1));
    LeastPassesOn(g, l, Direct(1, 4));
    LeastPassesOn(g, l, Direct(4, 3));
    assert g.IsItem(Item(10, 2)) && 100 in g.Flow(Item(10, 2), l);
  }

  // The address comes first, then variable 11, its relay, the parameter and variable 13.
  function Rank(n: NodeID): nat {
    match n case 2 => 0 case 1 => 1 case 4 => 2 case 3 => 3 case _ => 4
  }

  lemma EdgesAscend(g: SVFG)
    requires IsAcyclic(g)
    ensures forall n, e | n in g.nodes && e in g.inEdges(n) :: Rank(e.src) < Rank(n)
  {
  }

  // ----- the order to ask in -----

  lemma OnlyRelayReader(g: SVFG, x: Item, e: Item)
    requires IsAcyclic(g) && g.WellFormed() && x in g.items && g.ReadsRelay(x, e)
    ensures e.cur == 11 && x.loc == 3
  {
    assert g.IsItem(x);
  }

  lemma OnlyVariableNeeded(g: SVFG, v: NodeID, w: NodeID)
    requires IsAcyclic(g) && g.WellFormed() && Needs(g, v, w)
    ensures w == 11
  {
    var x, e :| x in g.Scope(g.DefItem(v)) && g.ReadsRelay(x, e) && e.cur == w;
    OnlyRelayReader(g, x, e);
  }

  lemma VariableNeedsNothing(g: SVFG, w: NodeID)
    requires IsAcyclic(g) && g.WellFormed()
    ensures !Needs(g, 11, w)
  {
    var closed := {Item(11, 1), Item(10, 2)};
    forall x, y | x in closed && g.Calls(x, y) ensures y in closed {
      assert !g.MayRead(Item(10, 2), y);
    }
    ScopeStaysIn(g, g.DefItem(11), closed);
    if Needs(g, 11, w) {
      var x, e :| x in g.Scope(g.DefItem(11)) && g.ReadsRelay(x, e) && e.cur == w;
      OnlyRelayReader(g, x, e);
      assert false;
    }
  }

  // Here asking for 11 before the others is in order,
  lemma VariableFirst(g: SVFG)
    requires IsAcyclic(g) && g.WellFormed()
    ensures InOrder(g, [11, 13, 12], {})
  {
    var queries := [11, 13, 12];
    forall i, w | 0 <= i < |queries| && Needs(g, queries[i], w) ensures w in queries[..i] {
      OnlyVariableNeeded(g, queries[i], w);
      if i == 0 {
        VariableNeedsNothing(g, w);
      } else {
        assert queries[..i][0] == 11;
      }
    }
    InOrderIffAskedBefore(g, queries);
  }

  // and with the recursion 11 cannot be asked for in order at all. That asking for 12 first
  // gives the right answer shows that the order is not necessary.
  lemma RecursionHasNoOrder(g: SVFG)
    requires IsRecursion(g) && g.WellFormed()
    ensures !exists queries :: InOrder(g, queries, {}) && 11 in queries
    ensures !InOrder(g, [12], {})
  {
    var d, x, e := Item(11, 1), Item(12, 3), Item(11, 2);
    assert g.IsItem(d) && g.IsItem(x);
    assert x in g.DirectSrcs(1) && e in g.DirectSrcs(3);
    assert g.Calls(d, x) && g.ReadsRelay(x, e);
    ScopeIsClosed(g, d);
    ScopeIsClosed(g, x);
    assert Needs(g, 11, 11) && Needs(g, 12, 11);
    InOrderIffRanked(g, 11);
    InOrderIffAskedBefore(g, [12]);
    assert [12][0] == 12 && [12][..0] == [];
  }

  // ----- both graphs exist -----

  // A graph of address, copy and gep nodes.
  function SimpleGraph(nodes: set<NodeID>, objs: set<NodeID>, kind: NodeID -> Kind,
                       fieldObj: (NodeID, NodeID) -> NodeID, lhs: NodeID -> NodeID, def: NodeID -> NodeID,
                       inEdges: NodeID -> seq<Edge>, outEdges: NodeID -> seq<Edge>): SVFG
  {
    EMPTY_GRAPH.(nodes := nodes, objs := objs, items := set n | n in nodes :: Item(lhs(n), n), kind := kind,
                 fieldObj := fieldObj, lhs := lhs, def := def, inEdges := inEdges, outEdges := outEdges)
  }

  ghost predicate KindsOk(nodes: set<NodeID>, objs: set<NodeID>, kind: NodeID -> Kind,
                          fieldObj: (NodeID, NodeID) -> NodeID)
  {
    forall n | n in nodes ::
      match kind(n)
      case Addr(base) => base in objs
      case Copy => true
      case Gep(variantField) => !variantField && forall o | o in objs :: fieldObj(n, o) in objs
      case _ => false
  }

  function CopyKind(address: NodeID): NodeID -> Kind {
    n => if n == address then Addr(100) else Copy
  }

  // The edges into every node lie within the graph and are also among the edges out of where
  // they come from, and the same the other way round.
  ghost predicate InEdgesOk(nodes: set<NodeID>, inEdges: NodeID -> seq<Edge>, outEdges: NodeID -> seq<Edge>) {
    forall n, e | n in nodes && e in inEdges(n) :: e.Direct? && e.dst == n && e.src in nodes && e in outEdges(e.src)
  }

  ghost predicate OutEdgesOk(nodes: set<NodeID>, inEdges: NodeID -> seq<Edge>, outEdges: NodeID -> seq<Edge>) {
    forall n, e | n in nodes && e in outEdges(n) :: e.Direct? && e.src == n && e.dst in nodes && e in inEdges(e.dst)
  }

  lemma SimpleGraphIsWellFormed(nodes: set<NodeID>, objs: set<NodeID>, kind: NodeID -> Kind,
                                fieldObj: (NodeID, NodeID) -> NodeID, lhs: NodeID -> NodeID, def: NodeID -> NodeID,
                                inEdges: NodeID -> seq<Edge>, outEdges: NodeID -> seq<Edge>)
    requires KindsOk(nodes, objs, kind, fieldObj)
    requires InEdgesOk(nodes, inEdges, outEdges) && OutEdgesOk(nodes, inEdges, outEdges)
    ensures SimpleGraph(nodes, objs, kind, fieldObj, lhs, def, inEdges, outEdges).WellFormed()
  {
    var g := SimpleGraph(nodes, objs, kind, fieldObj, lhs, def, inEdges, outEdges);
    forall d ensures d in g.items <==> g.IsItem(d) {
    }
    forall n, o | n in g.nodes && g.kind(n).Gep? && o in g.objs ensures g.GepTarget(n, o) in g.objs {
      assert g.GepTarget(n, o) == fieldObj(n, o);
    }
  }

  function RecursionLhs(n: NodeID): NodeID {
    match n case 0 => 10 case 1 => 11 case 2 => 11 case _ => 12
  }

  function RecursionDef(v: NodeID): NodeID {
    match v case 10 => 0 case 11 => 1 case _ => 3
  }

  function RecursionIn(n: NodeID): seq<Edge> {
    match n
    case 1 => [Direct(0, 1), Direct(3, 1)]
    case 2 => [Direct(1, 2)]
    case 3 => [Direct(2, 3)]
    case _ => []
  }

  function RecursionOut(n: NodeID): seq<Edge> {
    match n
    case 0 => [Direct(0, 1)]
    case 1 => [Direct(1, 2)]
    case 2 => [Direct(2, 3)]
    case 3 => [Direct(3, 1)]
    case _ => []
  }

  lemma RecursionInEdges()
    ensures InEdgesOk({0, 1, 2, 3}, RecursionIn, RecursionOut)
  {
  }

  lemma RecursionOutEdges()
    ensures OutEdgesOk({0, 1, 2, 3}, RecursionIn, RecursionOut)
  {
  }

  lemma RecursionExists() returns (g: SVFG)
    ensures IsRecursion(g) && g.WellFormed() && g.RelaysOk()
  {
    g := SimpleGraph({0, 1, 2, 3}, {100}, CopyKind(0), EMPTY_GRAPH.fieldObj,
                     RecursionLhs, RecursionDef, RecursionIn, RecursionOut);
    RecursionInEdges();
    RecursionOutEdges();
    SimpleGraphIsWellFormed({0, 1, 2, 3}, {100}, CopyKind(0), EMPTY_GRAPH.fieldObj,
                            RecursionLhs, RecursionDef, RecursionIn, RecursionOut);
    RecursionRelay(g);
  }

  lemma RecursionRelay(g: SVFG)
    requires IsRecursion(g)
    ensures g.RelaysOk()
  {
    assert !g.IsRelay(0) && !g.IsRelay(1) && !g.IsRelay(3);
  }

  function AcyclicLhs(n: NodeID): NodeID {
    match n case 0 => 13 case 1 => 11 case 2 => 10 case 3 => 12 case _ => 11
  }

  function AcyclicDef(v: NodeID): NodeID {
    match v case 10 => 2 case 11 => 1 case 12 => 3 case _ => 0
  }

  function AcyclicIn(n: NodeID): seq<Edge> {
    match n
    case 0 => [Direct(1, 0), Direct(2, 0), Direct(3, 0)]
    case 1 => [Direct(2, 1)]
    case 3 => [Direct(4, 3)]
    case 4 => [Direct(1, 4)]
    case _ => []
  }

  function AcyclicOut(n: NodeID): seq<Edge> {
    match n
    case 1 => [Direct(1, 0), Direct(1, 4)]
    case 2 => [Direct(2, 0), Direct(2, 1)]
    case 3 => [Direct(3, 0)]
    case 4 => [Direct(4, 3)]
    case _ => []
  }

  lemma AcyclicInEdges()
    ensures InEdgesOk({0, 1, 2, 3, 4}, AcyclicIn, AcyclicOut)
  {
    assert Direct(1, 0) in AcyclicOut(1) && Direct(1, 4) in AcyclicOut(1);
    assert Direct(2, 0) in AcyclicOut(2) && Direct(2, 1) in AcyclicOut(2);
    assert Direct(3, 0) in AcyclicOut(3) && Direct(4, 3) in AcyclicOut(4);
  }

  lemma AcyclicOutEdges()
    ensures OutEdgesOk({0, 1, 2, 3, 4}, AcyclicIn, AcyclicOut)
  {
    assert Direct(1, 0) in AcyclicIn(0) && Direct(2, 0) in AcyclicIn(0) && Direct(3, 0) in AcyclicIn(0);
    assert Direct(2, 1) in AcyclicIn(1) && Direct(4, 3) in AcyclicIn(3) && Direct(1, 4) in AcyclicIn(4);
  }

  lemma AcyclicExists() returns (g: SVFG)
    ensures IsAcyclic(g) && g.WellFormed() && g.RelaysOk()
  {
    g := SimpleGraph({0, 1, 2, 3, 4}, {100}, CopyKind(2), EMPTY_GRAPH.fieldObj,
                     AcyclicLhs, AcyclicDef, AcyclicIn, AcyclicOut);
    AcyclicInEdges();
    AcyclicOutEdges();
    SimpleGraphIsWellFormed({0, 1, 2, 3, 4}, {100}, CopyKind(2), EMPTY_GRAPH.fieldObj,
                            AcyclicLhs, AcyclicDef, AcyclicIn, AcyclicOut);
    AcyclicShape();
    AcyclicRelay(g);
  }

  lemma AcyclicShape()
    ensures IsAcyclic(SimpleGraph({0, 1, 2, 3, 4}, {100}, CopyKind(2), EMPTY_GRAPH.fieldObj,
                                  AcyclicLhs, AcyclicDef, AcyclicIn, AcyclicOut))
  {
  }

  lemma AcyclicRelay(g: SVFG)
    requires IsAcyclic(g)
    ensures g.RelaysOk()
  {
    assert !g.IsRelay(0) && !g.IsRelay(1) && !g.IsRelay(2) && !g.IsRelay(3);
  }
}
