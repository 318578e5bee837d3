/** Allocation and type inference: both walk the value graph with an explicit call stack and
    keep what they find for later queries. */
module ObjTypeInference {
  import opened CallStackWalk
  import opened Reachability
  import opened Wrappers

  lemma PushedNext(stack: seq<Pair>, us: seq<Value>, i: nat, cache: Cache)
    requires i < |us|
    ensures PushAll(stack, us[i..], cache) ==
            PushAll(if us[i] in cache then stack else Push(stack, (us[i], false)), us[i + 1..], cache)
  {
    assert us[i..][0] == us[i] && us[i..][1..] == us[i + 1..];
  }

  lemma GatheredNext(us: seq<Value>, i: nat, cache: Cache)
    requires i < |us|
    ensures Gather(us[..i + 1], cache) ==
            Gather(us[..i], cache) + if us[i] in cache then cache[us[i]] else {}
  {
    assert us[..i + 1] == us[..i] + [us[i]];
  }

  // The update phase: what v contributes itself and what its neighbours have cached.
  method GatherCached(own: set<Value>, us: seq<Value>, cache: Cache) returns (sources: set<Value>)
    ensures sources == own + Gather(us, cache)
  {
    sources := own;
    for i := 0 to |us|
      invariant sources == own + Gather(us[..i], cache)
    {
      GatheredNext(us, i, cache);
      if us[i] in cache { sources := sources + cache[us[i]]; }
    }
    assert us[..|us|] == us;
  }

  // The push phase: v's own update, then every neighbour nothing is cached for.
  method PushUncached(pending: seq<Pair>, v: Value, us: seq<Value>, cache: Cache) returns (workList: seq<Pair>)
    ensures workList == PushAll(if v in cache then pending else Push(pending, (v, true)), us, cache)
  {
    workList := pending;
    if v !in cache { workList := Push(workList, (v, true)); }
    ghost var base := workList;
    assert us[0..] == us;
    for i := 0 to |us|
      invariant PushAll(base, us, cache) == PushAll(workList, us[i..], cache)
    {
      PushedNext(workList, us, i, cache);
      if us[i] !in cache { workList := Push(workList, (us[i], false)); }
    }
  }

  // ----- allocations -----

  // How a value is defined, as far as the backward walk looks at it.
  datatype Def =
    | Alloc
    | BitCast(operand: Value)
    | Phi(incoming: seq<Value>)
    | Load(stored: seq<Value>)
    | Argument(actuals: seq<Value>)
    | Call(returned: seq<Value>)
    | Opaque

  function Operands(def: Def): seq<Value> {
    match def
    case Alloc => []
    case BitCast(operand) => [operand]
    case Phi(incoming) => incoming
    case Load(stored) => stored
    case Argument(actuals) => actuals
    case Call(returned) => returned
    case Opaque => []
  }

  function AllocFlow(defs: map<Value, Def>): Flow {
    Flow(defs.Keys,
         (v: Value) => if v in defs then Operands(defs[v]) else [],
         (v: Value) => if v in defs && defs[v].Alloc? then {v} else {})
  }

  // p leads backwards from v to the allocation a, through values that are no allocations.
  ghost predicate AllocPath(defs: map<Value, Def>, p: seq<Value>, v: Value, a: Value) {
    && IsPath(AllocFlow(defs).next, p) && p[0] == v && p[|p| - 1] == a && a in defs && defs[a].Alloc?
    && forall k | 0 <= k < |p| - 1 :: p[k] in defs && !defs[p[k]].Alloc?
  }

  lemma SourcesAreAllocations(defs: map<Value, Def>, v: Value)
    ensures forall a :: IsSource(AllocFlow(defs), v, a) <==> exists p :: AllocPath(defs, p, v, a)
  {
    var flow := AllocFlow(defs);
    forall a ensures IsSource(flow, v, a) <==> exists p :: AllocPath(defs, p, v, a) {
      if IsSource(flow, v, a) {
        var u :| Reaches(flow.next, v, u) && a in flow.local(u);
        var p :| IsPath(flow.next, p) && p[0] == v && p[|p| - 1] == u;
        forall k | 0 <= k < |p| - 1 ensures p[k] in defs && !defs[p[k]].Alloc? {
          assert p[k + 1] in flow.next(p[k]);
        }
        assert AllocPath(defs, p, v, a);
      }
      if p :| AllocPath(defs, p, v, a) {
        assert Reaches(flow.next, v, a) && a in flow.local(a);
      }
    }
  }

  class AllocInference {
    const defs: map<Value, Def>
    const flow: Flow                     // the graph of the definitions
    var valueToAllocs: Cache

    constructor (defs: map<Value, Def>)
      requires AllocFlow(defs).WellFormed()
      ensures this.defs == defs && valueToAllocs == map[] && Valid()
    {
      this.defs, flow := defs, AllocFlow(defs);
      valueToAllocs := map[];
    }

    // Every cached allocation can really be reached.
    ghost predicate Valid() reads this`valueToAllocs {
      flow == AllocFlow(defs) && flow.WellFormed() && Sound(flow, valueToAllocs)
    }

    method BwFindAllocOfVar(start: Value) returns (allocs: set<Value>)
      requires Valid() && start in defs
      modifies `valueToAllocs
      ensures Valid() && Kept(old(valueToAllocs), valueToAllocs)
      ensures start in valueToAllocs && allocs == valueToAllocs[start]
      ensures start in old(valueToAllocs) ==> valueToAllocs == old(valueToAllocs)
      ensures old(valueToAllocs) == map[] ==>
                forall a :: a in allocs <==> exists p :: AllocPath(defs, p, start, a)
    {
      if start !in valueToAllocs { CollectAllocs(start); }
      allocs := valueToAllocs[start];
      if old(valueToAllocs) == map[] { SourcesAreAllocations(defs, start); }
    }

    method CollectAllocs(start: Value)
      requires flow.WellFormed() && Sound(flow, valueToAllocs)
      requires start in flow.values && start !in valueToAllocs
      modifies `valueToAllocs
      ensures Sound(flow, valueToAllocs) && Kept(old(valueToAllocs), valueToAllocs) && start in valueToAllocs
      ensures old(valueToAllocs) == map[] ==> AreSources(flow, start, valueToAllocs[start])
    {
      ghost var entry := valueToAllocs;
      var workList, visited := [(start, false)], {};
      StartHoldsInvariant(flow, entry, start);
      while workList != []
        invariant Invariant(flow, entry, start, Walk(workList, visited, valueToAllocs))
        decreases |Pairs(flow) - visited|, |workList|
      {
        StepAdvances(flow, entry, start, Walk(workList, visited, valueToAllocs));
        workList, visited := Iterate(workList, visited);
      }
      FinishedWalk(flow, entry, start, Walk(workList, visited, valueToAllocs));
    }

    method Iterate(pending: seq<Pair>, before: set<Pair>) returns (workList: seq<Pair>, visited: set<Pair>)
      requires pending != []
      modifies `valueToAllocs
      ensures Walk(workList, visited, valueToAllocs) == Step(flow, Walk(pending, before, old(valueToAllocs)))
    {
      var (v, canUpdate) := pending[|pending| - 1];
      workList, visited := pending[..|pending| - 1], before;
      if (v, canUpdate) in visited { return; }
      visited := visited + {(v, canUpdate)};
      if canUpdate {
        var sources := GatherCached(flow.local(v), flow.next(v), valueToAllocs);
        valueToAllocs := valueToAllocs[v := sources];
      } else {
        workList := PushUncached(workList, v, flow.next(v), valueToAllocs);
      }
    }
  }

  // ----- types -----

  // Types are numbered by their address, which is how an OrderedSet of pointers sorts them.
  type Type = nat

  // The key order of typeSzToTypes compares 32-bit field counts after conversion to int.
  function Signed(n: u32): int {
    if n < 0x8000_0000 then n else n - 0x1_0000_0000
  }

  ghost predicate IsSelected(numFields: Type -> u32, types: set<Type>, t: Type) {
    && t in types
    && (forall u | u in types :: Signed(numFields(u)) <= Signed(numFields(t)))
    && (forall u | u in types && numFields(u) == numFields(t) :: t <= u)
  }

  ghost predicate IsLargest(numFields: Type -> u32, types: set<Type>, t: Type) {
    t in types && forall u | u in types :: numFields(u) <= numFields(t)
  }

  ghost predicate Straddles(numFields: Type -> u32, types: set<Type>) {
    (exists u :: u in types && numFields(u) < 0x8000_0000) && (exists u :: u in types && 0x8000_0000 <= numFields(u))
  }

  // The selected type has the most fields exactly when the field counts do not lie on both
  // sides of the sign bit.
  lemma SelectedIsLargest(numFields: Type -> u32, types: set<Type>, t: Type)
    requires IsSelected(numFields, types, t)
    ensures IsLargest(numFields, types, t) <==> !Straddles(numFields, types)
  {
    if Straddles(numFields, types) {
      var a :| a in types && numFields(a) < 0x8000_0000;
      var b :| b in types && 0x8000_0000 <= numFields(b);
      assert Signed(numFields(a)) <= Signed(numFields(t));
      assert numFields(t) < numFields(b);
    } else {
      forall u | u in types ensures numFields(u) <= numFields(t) {
        assert Signed(numFields(u)) <= Signed(numFields(t));
      }
    }
  }

  // A type of 2^31 fields loses against one of a single field.
  lemma HugeTypeIsNotSelected()
    ensures IsSelected((t: Type) => if t == 0 then 0x8000_0000 else 1, {0, 1}, 1)
  {
    var numFields: Type -> u32 := (t: Type) => if t == 0 then 0x8000_0000 else 1;
    assert numFields(0) == 0x8000_0000 && numFields(1) == 1;
  }

  lemma SelectedIsUnique(numFields: Type -> u32, types: set<Type>, t: Type, t': Type)
    requires IsSelected(numFields, types, t) && IsSelected(numFields, types, t')
    ensures t == t'
  {
    assert Signed(numFields(t)) <= Signed(numFields(t')) <= Signed(numFields(t));
  }

  // begin() of the map: the first key in descending order of its signed value.
  method FirstKey(keys: set<u32>) returns (key: u32)
    requires keys != {}
    ensures key in keys && forall k | k in keys :: Signed(k) <= Signed(key)
  {
    key :| key in keys;
    var rest := keys - {key};
    while rest != {}
      invariant rest <= keys && key in keys
      invariant forall k | k in keys :: k in rest || Signed(k) <= Signed(key)
    {
      var k :| k in rest;
      if Signed(key) < Signed(k) { key := k; }
      rest := rest - {k};
    }
  }

  method FirstType(types: set<Type>) returns (t: Type)
    requires types != {}
    ensures t in types && forall u | u in types :: t <= u
  {
    t :| t in types;
    var rest := types - {t};
    while rest != {}
      invariant rest <= types && t in types
      invariant forall u | u in types :: u in rest || t <= u
    {
      var u :| u in rest;
      if u < t { t := u; }
      rest := rest - {u};
    }
  }

  method SelectLargestSizedType(numFields: Type -> u32, types: set<Type>) returns (t: Option<Type>)
    ensures t.None? <==> types == {}
    ensures t.Some? ==> IsSelected(numFields, types, t.value)
  {
    if types == {} { return None; }
    var typeSzToTypes: map<u32, set<Type>>, rest := map[], types;
    while rest != {}
      invariant rest <= types
      invariant forall u | u in types - rest :: numFields(u) in typeSzToTypes && u in typeSzToTypes[numFields(u)]
      invariant forall n, u | n in typeSzToTypes && u in typeSzToTypes[n] :: u in types && numFields(u) == n
      invariant forall n | n in typeSzToTypes :: typeSzToTypes[n] != {}
    {
      var u :| u in rest;
      var n := numFields(u);
      typeSzToTypes := typeSzToTypes[n := (if n in typeSzToTypes then typeSzToTypes[n] else {}) + {u}];
      rest := rest - {u};
    }
    ghost var some :| some in types;
    assert numFields(some) in typeSzToTypes.Keys;
    var key := FirstKey(typeSzToTypes.Keys);
    var first := FirstType(typeSzToTypes[key]);
    t := Some(first);
  }

  // What the forward walk sees: how values flow on, which of them are inference sites, the
  // type a site suggests, and the stack and global objects whose type needs no walk.
  datatype Uses = Uses(flow: Flow, siteType: Value -> Type, isObject: Value -> bool,
                       numFields: Type -> u32, defaultType: Value -> Type)

  function TypesOf(uses: Uses, sites: set<Value>): set<Type> {
    set s | s in sites :: uses.siteType(s)
  }

  ghost predicate IsTypeOf(uses: Uses, sites: set<Value>, t: Option<Type>) {
    if sites == {} then t.None? else t.Some? && IsSelected(uses.numFields, TypesOf(uses, sites), t.value)
  }

  ghost predicate Decides(uses: Uses, v: Value, sites: set<Value>, t: Type) {
    if sites == {} then t == uses.defaultType(v) else IsSelected(uses.numFields, TypesOf(uses, sites), t)
  }

  // t is what the inference sites reachable from v decide, or v's default when there are none.
  ghost predicate IsInferred(uses: Uses, v: Value, t: Type) {
    exists sites: set<Value> :: AreSources(uses.flow, v, sites) && Decides(uses, v, sites, t)
  }

  // Some inference site reachable from v suggests u.
  ghost predicate Suggests(uses: Uses, v: Value, u: Type) {
    exists a :: IsSource(uses.flow, v, a) && uses.siteType(a) == u
  }

  ghost predicate SuggestsBothSigns(uses: Uses, v: Value) {
    && (exists u :: Suggests(uses, v, u) && uses.numFields(u) < 0x8000_0000)
    && (exists u :: Suggests(uses, v, u) && 0x8000_0000 <= uses.numFields(u))
  }

  // The inferred type is a suggested one, if there is any, and no suggested type has more
  // fields, unless their field counts lie on both sides of the sign bit.
  lemma InferredIsLargest(uses: Uses, v: Value, t: Type)
    requires IsInferred(uses, v, t)
    ensures (forall u :: !Suggests(uses, v, u)) ==> t == uses.defaultType(v)
    ensures (exists u :: Suggests(uses, v, u)) ==>
              && Suggests(uses, v, t)
              && ((forall u | Suggests(uses, v, u) :: uses.numFields(u) <= uses.numFields(t)) <==>
                  !SuggestsBothSigns(uses, v))
  {
    var sites: set<Value> :| AreSources(uses.flow, v, sites) && Decides(uses, v, sites, t);
    var types := TypesOf(uses, sites);
    SuggestedTypes(uses, v, sites);
    if sites != {} {
      SelectedIsLargest(uses.numFields, types, t);
      SameBothSigns(uses, v, types);
    }
  }

  lemma SameBothSigns(uses: Uses, v: Value, types: set<Type>)
    requires forall u :: u in types <==> Suggests(uses, v, u)
    ensures SuggestsBothSigns(uses, v) <==> Straddles(uses.numFields, types)
  {
    if SuggestsBothSigns(uses, v) {
      var a :| Suggests(uses, v, a) && uses.numFields(a) < 0x8000_0000;
      var b :| Suggests(uses, v, b) && 0x8000_0000 <= uses.numFields(b);
      assert a in types && b in types;
    }
  }

  lemma SuggestedTypes(uses: Uses, v: Value, sites: set<Value>)
    requires AreSources(uses.flow, v, sites)
    ensures forall u :: u in TypesOf(uses, sites) <==> Suggests(uses, v, u)
    ensures sites == {} <==> forall u :: !Suggests(uses, v, u)
  {
    forall u ensures u in TypesOf(uses, sites) <==> Suggests(uses, v, u) {
      if u in TypesOf(uses, sites) {
        var a :| a in sites && uses.siteType(a) == u;
        assert IsSource(uses.flow, v, a);
      }
    }
    if a :| a in sites {
      assert uses.siteType(a) in TypesOf(uses, sites);
    }
  }

  // The two caches have the same values, and a value's type is decided by its cached sites.
  ghost predicate Typed(uses: Uses, sites: Cache, types: map<Value, Option<Type>>) {
    types.Keys == sites.Keys && forall v {:trigger types[v]} | v in types :: IsTypeOf(uses, sites[v], types[v])
  }

  lemma KeptSitesKeepTypes(uses: Uses, sites: Cache, types: map<Value, Option<Type>>,
                           sites': Cache, types': map<Value, Option<Type>>)
    requires Typed(uses, sites, types) && Typed(uses, sites', types') && Kept(sites, sites')
    ensures forall v | v in types :: v in types' && types'[v] == types[v]
  {
    forall v | v in types ensures v in types' && types'[v] == types[v] {
      assert v in sites && v in sites';
      if types[v].Some? {
        SelectedIsUnique(uses.numFields, TypesOf(uses, sites[v]), types[v].value, types'[v].value);
      }
    }
  }

  class TypeInference {
    const uses: Uses
    var valueToInferSites: Cache
    var valueToType: map<Value, Option<Type>>

    constructor (uses: Uses)
      requires uses.flow.WellFormed()
      ensures this.uses == uses && valueToInferSites == map[] && Valid()
    {
      this.uses := uses;
      valueToInferSites, valueToType := map[], map[];
    }

    ghost predicate Valid() reads this {
      && uses.flow.WellFormed() && Sound(uses.flow, valueToInferSites)
      && Typed(uses, valueToInferSites, valueToType)
    }

    method FwInferObjType(start: Value) returns (t: Type)
      requires Valid() && start in uses.flow.values
      modifies `valueToInferSites, `valueToType
      ensures Valid() && Kept(old(valueToInferSites), valueToInferSites)
      ensures forall v | v in old(valueToType) :: v in valueToType && valueToType[v] == old(valueToType[v])
      ensures uses.isObject(start) ==> t == uses.siteType(start) && valueToType == old(valueToType)
      ensures !uses.isObject(start) ==>
                && start in valueToType
                && t == if valueToType[start].Some? then valueToType[start].value else uses.defaultType(start)
      ensures !uses.isObject(start) && old(valueToInferSites) == map[] ==> IsInferred(uses, start, t)
    {
      if uses.isObject(start) { return uses.siteType(start); }
      if start !in valueToType {
        CollectInferSites(start);
        KeptSitesKeepTypes(uses, old(valueToInferSites), old(valueToType), valueToInferSites, valueToType);
      }
      t := if valueToType[start].Some? then valueToType[start].value else uses.defaultType(start);
      if old(valueToInferSites) == map[] {
        assert Decides(uses, start, valueToInferSites[start], t);
      }
    }

    method CollectInferSites(start: Value)
      requires Valid() && start in uses.flow.values && start !in valueToType
      modifies `valueToInferSites, `valueToType
      ensures Valid() && Kept(old(valueToInferSites), valueToInferSites) && start in valueToInferSites
      ensures old(valueToInferSites) == map[] ==> AreSources(uses.flow, start, valueToInferSites[start])
    {
      ghost var flow, entry := uses.flow, valueToInferSites;
      var workList, visited := [(start, false)], {};
      StartHoldsInvariant(flow, entry, start);
      while workList != []
        invariant Invariant(flow, entry, start, Walk(workList, visited, valueToInferSites))
        invariant Typed(uses, valueToInferSites, valueToType)
        decreases |Pairs(flow) - visited|, |workList|
      {
        StepAdvances(flow, entry, start, Walk(workList, visited, valueToInferSites));
        workList, visited := Iterate(workList, visited);
      }
      FinishedWalk(flow, entry, start, Walk(workList, visited, valueToInferSites));
    }

    // Both caches get the entry of an updated value.
    method Iterate(pending: seq<Pair>, before: set<Pair>) returns (workList: seq<Pair>, visited: set<Pair>)
      requires pending != [] && Typed(uses, valueToInferSites, valueToType)
      modifies `valueToInferSites, `valueToType
      ensures Walk(workList, visited, valueToInferSites) ==
              Step(uses.flow, Walk(pending, before, old(valueToInferSites)))
      ensures Typed(uses, valueToInferSites, valueToType)
    {
      var (v, canUpdate) := pending[|pending| - 1];
      workList, visited := pending[..|pending| - 1], before;
      if (v, canUpdate) in visited { return; }
      visited := visited + {(v, canUpdate)};
      if canUpdate {
        var inferSites := GatherCached(uses.flow.local(v), uses.flow.next(v), valueToInferSites);
        var types := TypesOf(uses, inferSites);
        var t := SelectLargestSizedType(uses.numFields, types);
        assert IsTypeOf(uses, inferSites, t) by {
          if s :| s in inferSites { assert uses.siteType(s) in types; }
        }
        valueToInferSites := valueToInferSites[v := inferSites];
        valueToType := valueToType[v := t];
      } else {
        workList := PushUncached(workList, v, uses.flow.next(v), valueToInferSites);
      }
    }
  }
}
