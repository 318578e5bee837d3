/** With a set kept per variable even the first query of a fresh solver, on a graph without
    cycles, can be answered too small. */
module FirstQuery {
  import opened ValueFlowGraph
  import opened PerVariableCache

  // Variable 13 at node 1 is a field of variable 11, object 100 or the parameter 12 that 11 is
  // passed to by node 6. Variable 11 is the address of object 100 or 101, and the fields
  // selected at node 0 are 200 and 201.
  ghost predicate IsFirstQuery(g: SVFG) {
    && g.nodes == {0, 1, 2, 3, 4, 5, 6} && g.objs == {100, 101, 200, 201}
    && g.fieldInsensitive == g.blackHoleOrConstant == {} && g.fieldObj(0, 100) == 200 && g.fieldObj(0, 101) == 201
    && g.kind(0) == Gep(false) && g.kind(2) == Addr(100) && g.kind(3) == Addr(101)
    && g.kind(1) == g.kind(4) == g.kind(5) == g.kind(6) == Copy
    && g.lhs(0) == 14 && g.lhs(1) == 13 && g.lhs(2) == 10 && g.lhs(3) == 15 && g.lhs(4) == 12
    && g.lhs(5) == g.lhs(6) == 11 && g.def(11) == 5 && g.def(13) == 1
    && g.inEdges(0) == [Direct(5, 0)] && g.inEdges(1) == [Direct(0, 1), Direct(2, 1), Direct(4, 1)]
    && g.inEdges(2) == g.inEdges(3) == [] && g.inEdges(4) == [Direct(6, 4)]
    && g.inEdges(5) == [Direct(2, 5), Direct(3, 5)] && g.inEdges(6) == [Direct(5, 6)]
    && g.outEdges(0) == [Direct(0, 1)] && g.outEdges(1) == [] && g.outEdges(2) == [Direct(2, 1), Direct(2, 5)]
    && g.outEdges(3) == [Direct(3, 5)] && g.outEdges(4) == [Direct(4, 1)]
    && g.outEdges(5) == [Direct(5, 0), Direct(5, 6)] && g.outEdges(6) == [Direct(6, 4)]
  }

  const SEVEN := {0, 1, 2, 3, 4, 5, 6}
  const SIX := {0, 1, 2, 4, 5, 6}
  const ONE_SET := map[10 := {100}]
  const TWO_SETS := ONE_SET[13 := {100}]
  const THREE_SETS := TWO_SETS[15 := {101}]
  const FOUR_SETS := THREE_SETS[11 := {100, 101}]
  const FIVE_SETS := FOUR_SETS[14 := {200, 201}]
  const LAST_SETS := FIVE_SETS[13 := {100, 200, 201}]

  lemma Unset(sets: map<NodeID, set<NodeID>>, v: NodeID, found: set<NodeID>)
    requires v !in sets
    ensures var s := State({}, {}, sets); sets[v := Cached(s, v) + found] == sets[v := found]
  {
    assert {} + found == found;
  }

  // The parameter is read while the set of 11 is still empty.
  lemma ParameterIsEmpty(g: SVFG, k: nat)
    requires IsFirstQuery(g) && k >= 3
    ensures Find(g, 4, State({0, 1, 2, 5}, {0, 1, 2, 5}, ONE_SET), k) == State(SIX, SIX, ONE_SET)
  {
    var s, t := State({0, 1, 2, 4, 5}, {0, 1, 2, 4, 5}, ONE_SET), State(SIX, SIX, ONE_SET);
    assert {0, 1, 2, 5} + {4} == {0, 1, 2, 4, 5} && {0, 1, 2, 4, 5} + {6} == SIX;
    GatherOne(g, Direct(5, 6), t, k - 2);
    assert Find(g, 6, s, k - 1) == t;
    GatherOne(g, Direct(6, 4), s, k - 1);
  }

  lemma ReadsParameter(g: SVFG, k: nat)
    requires IsFirstQuery(g) && k >= 3
    ensures Gather(g, g.inEdges(1), {}, State({0, 1, 2, 5}, {0, 1, 2, 5}, ONE_SET), k) ==
            ({100}, State(SIX, SIX, ONE_SET))
  {
    ParameterIsEmpty(g, k);
    GatherThree(g, Direct(0, 1), Direct(2, 1), Direct(4, 1), State({0, 1, 2, 5}, {0, 1, 2, 5}, ONE_SET), k);
    assert {} + {100} + {} == {100};
  }

  // Told that object 100's address grew, node 1 reads the parameter before node 5 is told.
  lemma QueriedTooEarly(g: SVFG, k: nat)
    requires IsFirstQuery(g) && k >= 4
    ensures Find(g, 1, State({0, 2, 5}, {0, 1, 2, 5}, ONE_SET), k) == State(SIX, SIX, TWO_SETS)
  {
    assert {0, 2, 5} + {1} == {0, 1, 2, 5} && {0, 1, 2, 5} + {1} == {0, 1, 2, 5};
    ReadsParameter(g, k - 1);
    FindIs(g, 1, State({0, 2, 5}, {0, 1, 2, 5}, ONE_SET), {100}, State(SIX, SIX, ONE_SET), k);
    EarlyMerge(g, k - 1);
  }

  lemma EarlyMerge(g: SVFG, k: nat)
    requires IsFirstQuery(g)
    ensures Merge(g, 1, {100}, State(SIX, SIX, ONE_SET), k) == State(SIX, SIX, TWO_SETS)
  {
    Unset(ONE_SET, 13, {100});
  }

  lemma QueriedGrows(g: SVFG, k: nat)
    requires IsFirstQuery(g) && k >= 2
    ensures Find(g, 1, State(SEVEN - {1}, SEVEN, FIVE_SETS), k) == State(SEVEN, SEVEN, LAST_SETS)
  {
    assert SEVEN - {1} + {1} == SEVEN && SEVEN + {1} == SEVEN;
    ReadsAll(g, k - 1);
    FindIs(g, 1, State(SEVEN - {1}, SEVEN, FIVE_SETS), {100, 200, 201}, State(SEVEN, SEVEN, FIVE_SETS), k);
    LastMerge(g, k - 1);
  }

  lemma ReadsAll(g: SVFG, k: nat)
    requires IsFirstQuery(g) && k >= 1
    ensures var t := State(SEVEN, SEVEN, FIVE_SETS); Gather(g, g.inEdges(1), {}, t, k) == ({100, 200, 201}, t)
  {
    GatherThree(g, Direct(0, 1), Direct(2, 1), Direct(4, 1), State(SEVEN, SEVEN, FIVE_SETS), k);
    assert {200, 201} + {100} + {} == {100, 200, 201};
  }

  lemma LastMerge(g: SVFG, k: nat)
    requires IsFirstQuery(g)
    ensures Merge(g, 1, {100, 200, 201}, State(SEVEN, SEVEN, FIVE_SETS), k) == State(SEVEN, SEVEN, LAST_SETS)
  {
    var s := State(SEVEN, SEVEN, FIVE_SETS);
    assert 200 in {100, 200, 201} && 200 !in Cached(s, 13);
    assert Cached(s, 13) + {100, 200, 201} == {100, 200, 201};
  }

  lemma FieldsGrow(g: SVFG, k: nat)
    requires IsFirstQuery(g) && k >= 3
    ensures Find(g, 0, State(SEVEN - {0}, SEVEN, FOUR_SETS), k) == State(SEVEN, SEVEN, LAST_SETS)
  {
    var s := State(SEVEN, SEVEN, FOUR_SETS);
    assert SEVEN - {0} + {0} == SEVEN && SEVEN + {0} == SEVEN;
    GatherOne(g, Direct(5, 0), s, k - 1);
    FieldsOf(g);
    FindIs(g, 0, State(SEVEN - {0}, SEVEN, FOUR_SETS), {100, 101}, s, k);
    FieldsMerge(g, k - 1);
  }

  lemma FieldsMerge(g: SVFG, k: nat)
    requires IsFirstQuery(g) && k >= 2
    ensures Merge(g, 0, {200, 201}, State(SEVEN, SEVEN, FOUR_SETS), k) == State(SEVEN, SEVEN, LAST_SETS)
  {
    Unset(FOUR_SETS, 14, {200, 201});
    ReComputeOne(g, Direct(0, 1), State(SEVEN, SEVEN, FIVE_SETS), k);
    QueriedGrows(g, k);
  }

  lemma FieldsOf(g: SVFG)
    requires IsFirstQuery(g)
    ensures Targets(g, 0, {100, 101}) == {200, 201}
  {
    assert g.GepTarget(0, 100) == 200 && g.GepTarget(0, 101) == 201;
  }

  lemma RelaySeesNothing(g: SVFG, k: nat)
    requires IsFirstQuery(g) && k >= 2
    ensures Find(g, 6, State(SEVEN - {6}, SEVEN, LAST_SETS), k) == State(SEVEN, SEVEN, LAST_SETS)
  {
    assert SEVEN - {6} + {6} == SEVEN && SEVEN + {6} == SEVEN;
    GatherOne(g, Direct(5, 6), State(SEVEN, SEVEN, LAST_SETS), k - 1);
  }

  lemma BothAddresses(g: SVFG, k: nat)
    requires IsFirstQuery(g) && k >= 4
    ensures Find(g, 5, State(SEVEN - {5}, SEVEN, THREE_SETS), k) == State(SEVEN, SEVEN, LAST_SETS)
  {
    var s := State(SEVEN, SEVEN, THREE_SETS);
    assert SEVEN - {5} + {5} == SEVEN && SEVEN + {5} == SEVEN;
    GatherTwo(g, Direct(2, 5), Direct(3, 5), s, k - 1);
    assert {100} + {101} == {100, 101};
    FindIs(g, 5, State(SEVEN - {5}, SEVEN, THREE_SETS), {100, 101}, s, k);
    VariableMerge(g, k - 1);
  }

  lemma VariableMerge(g: SVFG, k: nat)
    requires IsFirstQuery(g) && k >= 3
    ensures Merge(g, 5, {100, 101}, State(SEVEN, SEVEN, THREE_SETS), k) == State(SEVEN, SEVEN, LAST_SETS)
  {
    Unset(THREE_SETS, 11, {100, 101});
    FieldsGrow(g, k);
    RelaySeesNothing(g, k);
    ReComputeTwo(g, Direct(5, 0), Direct(5, 6), State(SEVEN, SEVEN, FOUR_SETS), k);
  }

  lemma SecondAddress(g: SVFG, k: nat)
    requires IsFirstQuery(g) && k >= 5
    ensures Find(g, 3, State(SIX, SIX, TWO_SETS), k) == State(SEVEN, SEVEN, LAST_SETS)
  {
    assert SIX + {3} == SEVEN;
    FindAddress(g, 3, State(SIX, SIX, TWO_SETS), k);
    SecondMerge(g, k - 1);
  }

  lemma SecondMerge(g: SVFG, k: nat)
    requires IsFirstQuery(g) && k >= 4
    ensures Merge(g, 3, {101}, State(SEVEN, SEVEN, TWO_SETS), k) == State(SEVEN, SEVEN, LAST_SETS)
  {
    Unset(TWO_SETS, 15, {101});
    ReComputeOne(g, Direct(3, 5), State(SEVEN, SEVEN, THREE_SETS), k);
    BothAddresses(g, k);
  }

  lemma VariableAgain(g: SVFG, k: nat)
    requires IsFirstQuery(g) && k >= 6
    ensures Find(g, 5, State(SIX - {5}, SIX, TWO_SETS), k) == State(SEVEN, SEVEN, LAST_SETS)
  {
    assert SIX - {5} + {5} == SIX && SIX + {5} == SIX;
    SecondAddress(g, k - 1);
    ReadsBothAddresses(g, State(SIX, SIX, TWO_SETS), k - 1);
  }

  // Where the second address is reached last, nothing is left to be merged at node 5.
  lemma ReadsBothAddresses(g: SVFG, s: State, k: nat)
    requires IsFirstQuery(g)
    requires var u := Find(g, 3, Find(g, 2, s, k), k); u == State(SEVEN, SEVEN, LAST_SETS)
    requires Cached(Find(g, 2, s, k), 10) == {100}
    ensures Gather(g, g.inEdges(5), {}, s, k) == ({100, 101}, State(SEVEN, SEVEN, LAST_SETS))
    ensures Merge(g, 5, {100, 101}, State(SEVEN, SEVEN, LAST_SETS), k) == State(SEVEN, SEVEN, LAST_SETS)
  {
    GatherTwo(g, Direct(2, 5), Direct(3, 5), s, k);
    assert {100} + {101} == {100, 101};
  }

  lemma FirstAddress(g: SVFG, k: nat)
    requires IsFirstQuery(g) && k >= 7
    ensures Find(g, 2, State({0, 1, 5}, {0, 1, 5}, map[]), k) == State(SEVEN, SEVEN, LAST_SETS)
  {
    assert {0, 1, 5} + {2} == {0, 1, 2, 5} && {0, 1, 2, 5} - {1} == {0, 2, 5};
    FindAddress(g, 2, State({0, 1, 5}, {0, 1, 5}, map[]), k);
    FirstMerge(g, k - 1);
  }

  lemma FirstMerge(g: SVFG, k: nat)
    requires IsFirstQuery(g) && k >= 6
    ensures Merge(g, 2, {100}, State({0, 1, 2, 5}, {0, 1, 2, 5}, map[]), k) == State(SEVEN, SEVEN, LAST_SETS)
  {
    assert {0, 1, 2, 5} - {1} == {0, 2, 5};
    Unset(map[], 10, {100});
    assert map[][10 := {100}] == ONE_SET;
    QueriedTooEarly(g, k);
    VariableAgain(g, k);
    ReComputeTwo(g, Direct(2, 1), Direct(2, 5), State({0, 1, 2, 5}, {0, 1, 2, 5}, ONE_SET), k);
  }

  lemma AskVariable(g: SVFG, k: nat)
    requires IsFirstQuery(g) && k >= 8
    ensures Find(g, 5, State({0, 1}, {0, 1}, map[]), k) == State(SEVEN, SEVEN, LAST_SETS)
  {
    assert {0, 1} + {5} == {0, 1, 5};
    FirstAddress(g, k - 1);
    ReadsBothAddresses(g, State({0, 1, 5}, {0, 1, 5}, map[]), k - 1);
    FindIs(g, 5, State({0, 1}, {0, 1}, map[]), {100, 101}, State(SEVEN, SEVEN, LAST_SETS), k);
  }

  lemma AskFields(g: SVFG, k: nat)
    requires IsFirstQuery(g) && k >= 9
    ensures Find(g, 0, State({1}, {1}, map[]), k) == State(SEVEN, SEVEN, LAST_SETS)
  {
    assert {1} + {0} == {0, 1};
    ReadsVariable(g, k - 1);
    FieldsOf(g);
    FindIs(g, 0, State({1}, {1}, map[]), {100, 101}, State(SEVEN, SEVEN, LAST_SETS), k);
    EndIsStable(g, k - 1);
  }

  lemma ReadsVariable(g: SVFG, k: nat)
    requires IsFirstQuery(g) && k >= 8
    ensures Gather(g, g.inEdges(0), {}, State({0, 1}, {0, 1}, map[]), k) ==
            ({100, 101}, State(SEVEN, SEVEN, LAST_SETS))
  {
    AskVariable(g, k);
    GatherOne(g, Direct(5, 0), State({0, 1}, {0, 1}, map[]), k);
  }

  lemma EndIsStable(g: SVFG, k: nat)
    requires IsFirstQuery(g)
    ensures var end := State(SEVEN, SEVEN, LAST_SETS);
      Merge(g, 0, {200, 201}, end, k) == end && Merge(g, 1, {100, 200, 201}, end, k) == end
  {
  }

  lemma ReadsLast(g: SVFG, k: nat)
    requires IsFirstQuery(g) && k >= 9
    ensures Gather(g, g.inEdges(1), {}, State({1}, {1}, map[]), k) ==
            ({100, 200, 201}, State(SEVEN, SEVEN, LAST_SETS))
  {
    AskFields(g, k);
    GatherThree(g, Direct(0, 1), Direct(2, 1), Direct(4, 1), State({1}, {1}, map[]), k);
    assert {200, 201} + {100} + {} == {100, 200, 201};
  }

  lemma AskFirst(g: SVFG, k: nat)
    requires IsFirstQuery(g) && k >= 10
    ensures Find(g, 1, FRESH, k) == State(SEVEN, SEVEN, LAST_SETS)
  {
    assert {} + {1} == {1};
    ReadsLast(g, k - 1);
    FindIs(g, 1, FRESH, {100, 200, 201}, State(SEVEN, SEVEN, LAST_SETS), k);
    EndIsStable(g, k - 1);
  }

  // On this graph without cycles even the first query of a fresh solver is answered too small.
  lemma FirstAnswerIsTooSmall(g: SVFG, depth: nat, l: PtsMap)
    requires IsFirstQuery(g) && g.WellFormed() && g.IsLeast(map[], l) && depth >= 10
    ensures Answer(g, [13], 13, depth) == {100, 200, 201}
    ensures 101 in At(l, g.DefItem(13))
    ensures forall n, e | n in g.nodes && e in g.inEdges(n) :: Height(e.src) < Height(n)
  {
    AskFirst(g, depth);
    AskOne(g, 13, FRESH, depth);
    SecondObjectPassedOn(g, l);
    EdgesClimb(g);
  }

  lemma SecondObjectPassedOn(g: SVFG, l: PtsMap)
    requires IsFirstQuery(g) && g.WellFormed() && g.IsLeast(map[], l)
    ensures 101 in At(l, g.DefItem(13))
  {
    LeastPassesOn(g, l, Direct(3, 5));
    LeastPassesOn(g, l, Direct(5, 6));
    LeastPassesOn(g, l, Direct(6, 4));
    LeastPassesOn(g, l, Direct(4, 1));
    assert g.IsItem(Item(15, 3)) && 101 in g.Flow(Item(15, 3), l);
  }

  // The addresses come first, then variable 11, its relay and fields, the parameter and 13.
  function Height(n: NodeID): nat {
    match n case 2 => 0 case 3 => 0 case 5 => 1 case 0 => 2 case 6 => 2 case 4 => 3 case _ => 4
  }

  lemma EdgesClimb(g: SVFG)
    requires IsFirstQuery(g)
    ensures forall n, e | n in g.nodes && e in g.inEdges(n) :: Height(e.src) < Height(n)
  {
  }
}
