/** The depth-first walk shared by the type and allocation inference: a worklist of
    (value, canUpdate) pairs that simulates a call stack and fills a persistent cache. */
module CallStackWalk {
  import opened Reachability

  type Value = Node

  // What the inference sees of the program: the values whose sources flow into v, and the
  // sources v contributes itself.
  datatype Flow = Flow(values: set<Value>, next: Value -> seq<Value>, local: Value -> set<Value>)
  {
    ghost predicate WellFormed() {
      forall v, u {:trigger v in values, u in next(v)} | v in values && u in next(v) :: u in values
    }
  }

  type Pair = (Value, bool)
  type Cache = map<Value, set<Value>>

  // The worklist is last-in-first-out and ignores a pair that is already pending.
  datatype Walk = Walk(stack: seq<Pair>, visited: set<Pair>, cache: Cache)

  // Some value reachable from v contributes a.
  ghost predicate IsSource(flow: Flow, v: Value, a: Value) {
    exists u :: Reaches(flow.next, v, u) && a in flow.local(u)
  }

  ghost predicate AreSources(flow: Flow, v: Value, found: set<Value>) {
    forall a :: a in found <==> IsSource(flow, v, a)
  }

  // ----- one iteration -----

  function Push(stack: seq<Pair>, x: Pair): seq<Pair> {
    if x in stack then stack else stack + [x]
  }

  function PushAll(stack: seq<Pair>, us: seq<Value>, cache: Cache): (r: seq<Pair>)
    ensures stack <= r
    ensures forall x | x in stack :: x in r
    ensures forall x | x in r :: x in stack || (x.0 in us && !x.1)
    ensures forall u | u in us && u !in cache :: (u, false) in r
    decreases us
  {
    if us == [] then stack
    else
      var pushed := if us[0] in cache then stack else Push(stack, (us[0], false));
      assert us[0] !in cache ==> (us[0], false) in pushed;
      PushAll(pushed, us[1..], cache)
  }

  function Gather(us: seq<Value>, cache: Cache): set<Value> {
    set u, a | u in us && u in cache && a in cache[u] :: a
  }

  // Taking the last pair off the worklist: skip it if it was visited, push v's update and
  // its uncached neighbours, or record v's sources from what the cache holds by now.
  function Step(flow: Flow, w: Walk): Walk
    requires w.stack != []
  {
    var (v, canUpdate) := w.stack[|w.stack| - 1];
    var rest := w.stack[..|w.stack| - 1];
    if (v, canUpdate) in w.visited then w.(stack := rest)
    else
      var visited := w.visited + {(v, canUpdate)};
      if canUpdate then
        Walk(rest, visited, w.cache[v := flow.local(v) + Gather(flow.next(v), w.cache)])
      else
        Walk(PushAll(if v in w.cache then rest else Push(rest, (v, true)), flow.next(v), w.cache), visited, w.cache)
  }

  // ----- what holds for any starting cache -----

  ghost predicate Sound(flow: Flow, cache: Cache) {
    forall v, a | v in cache && a in cache[v] :: IsSource(flow, v, a)
  }

  ghost predicate NoDuplicates(stack: seq<Pair>) {
    forall i, j | 0 <= i < j < |stack| :: stack[i] != stack[j]
  }

  ghost predicate InValues(flow: Flow, w: Walk) {
    && (forall x {:trigger x in w.stack} | x in w.stack :: x.0 in flow.values)
    && (forall x {:trigger x in w.visited} | x in w.visited :: x.0 in flow.values)
  }

  // A pending update is of a value that was expanded and has not been recorded.
  ghost predicate UpdatesArePending(w: Walk) {
    && (forall v {:trigger (v, true) in w.stack} | (v, true) in w.stack ::
          v !in w.cache && (v, true) !in w.visited && (v, false) in w.visited)
    && (forall v {:trigger (v, true) in w.visited} | (v, true) in w.visited :: v in w.cache)
  }

  ghost predicate Kept(before: Cache, after: Cache) {
    forall v | v in before :: v in after && after[v] == before[v]
  }

  ghost predicate Ok(flow: Flow, start: Cache, w: Walk) {
    InValues(flow, w) && NoDuplicates(w.stack) && UpdatesArePending(w) && Sound(flow, w.cache) && Kept(start, w.cache)
  }

  lemma {:induction false} PushAllNoDuplicates(stack: seq<Pair>, us: seq<Value>, cache: Cache)
    requires NoDuplicates(stack)
    ensures NoDuplicates(PushAll(stack, us, cache))
    decreases us
  {
    if us != [] {
      PushAllNoDuplicates(if us[0] in cache then stack else Push(stack, (us[0], false)), us[1..], cache);
    }
  }

  lemma UpdateIsSound(flow: Flow, cache: Cache, v: Value)
    requires Sound(flow, cache)
    ensures Sound(flow, cache[v := flow.local(v) + Gather(flow.next(v), cache)])
  {
    forall a | a in flow.local(v) + Gather(flow.next(v), cache) ensures IsSource(flow, v, a) {
      if a in flow.local(v) {
        ReachesItself(flow.next, v);
      } else {
        var u :| u in flow.next(v) && u in cache && a in cache[u];
        assert IsSource(flow, u, a);
        var x :| Reaches(flow.next, u, x) && a in flow.local(x);
        ReachesThrough(flow.next, v, u, x);
      }
    }
  }

  // What expanding v does: base is the rest of the stack with v's update on top if it is due.
  ghost predicate Opens(flow: Flow, w: Walk, w': Walk, v: Value, rest: seq<Pair>, base: seq<Pair>) {
    && w.stack == rest + [(v, false)] && (v, false) !in w.visited
    && base == (if v in w.cache then rest else Push(rest, (v, true)))
    && w'.stack == PushAll(base, flow.next(v), w.cache)
    && w'.cache == w.cache && w'.visited == w.visited + {(v, false)}
  }

  lemma OpenKeepsValues(flow: Flow, w: Walk, w': Walk, v: Value, rest: seq<Pair>, base: seq<Pair>)
    requires Opens(flow, w, w', v, rest, base) && flow.WellFormed() && InValues(flow, w)
    ensures InValues(flow, w')
  {
    assert (v, false) in w.stack && v in flow.values;
    assert forall x | x in rest :: x in w.stack;
    forall x {:trigger x in w'.stack} | x in w'.stack ensures x.0 in flow.values {
      if x in base { assert x in rest || x.0 == v; }
    }
  }

  lemma OpenAddsNoDuplicates(flow: Flow, w: Walk, w': Walk, v: Value, rest: seq<Pair>, base: seq<Pair>)
    requires Opens(flow, w, w', v, rest, base) && NoDuplicates(w.stack)
    ensures NoDuplicates(w'.stack)
  {
    assert forall i {:trigger rest[i]} | 0 <= i < |rest| :: rest[i] == w.stack[i];
    PushAllNoDuplicates(base, flow.next(v), w.cache);
  }

  lemma OpenKeepsUpdates(flow: Flow, w: Walk, w': Walk, v: Value, rest: seq<Pair>, base: seq<Pair>)
    requires Opens(flow, w, w', v, rest, base) && UpdatesArePending(w)
    ensures UpdatesArePending(w')
  {
    assert forall x | x in rest :: x in w.stack;
    forall u | (u, true) in w'.stack ensures u !in w.cache && (u, true) !in w.visited && (u, false) in w'.visited {
      assert (u, true) in base;
    }
  }

  lemma StepKeepsOk(flow: Flow, start: Cache, w: Walk)
    requires flow.WellFormed() && Ok(flow, start, w) && w.stack != []
    ensures Ok(flow, start, Step(flow, w))
  {
    var x := w.stack[|w.stack| - 1];
    var rest := w.stack[..|w.stack| - 1];
    assert w.stack == rest + [x] && x in w.stack && forall y | y in rest :: y in w.stack && y != x;
    if x !in w.visited {
      if x.1 {
        UpdateIsSound(flow, w.cache, x.0);
      } else {
        var base := if x.0 in w.cache then rest else Push(rest, (x.0, true));
        OpenKeepsValues(flow, w, Step(flow, w), x.0, rest, base);
        OpenAddsNoDuplicates(flow, w, Step(flow, w), x.0, rest, base);
        OpenKeepsUpdates(flow, w, Step(flow, w), x.0, rest, base);
      }
    }
  }

  // An entry, once written, is never written again.
  lemma StepWritesOnce(flow: Flow, start: Cache, w: Walk)
    requires flow.WellFormed() && Ok(flow, start, w) && w.stack != []
    ensures forall v | v in w.cache :: v in Step(flow, w).cache && Step(flow, w).cache[v] == w.cache[v]
  {
    StepKeepsOk(flow, w.cache, w);
  }

  // An expanded value is cached or will be, and the root is expanded or will be.
  ghost predicate Awaits(r: Value, w: Walk) {
    && (forall v {:trigger (v, false) in w.visited} | (v, false) in w.visited :: v in w.cache || (v, true) in w.stack)
    && ((r, false) in w.visited || (r, false) in w.stack)
  }

  lemma OpenKeepsAwaits(flow: Flow, r: Value, w: Walk, w': Walk, v: Value, rest: seq<Pair>, base: seq<Pair>)
    requires Opens(flow, w, w', v, rest, base) && Awaits(r, w)
    ensures Awaits(r, w')
  {
    assert forall x {:trigger x in rest} | x in w.stack && x != (v, false) :: x in rest;
    assert forall x | x in rest :: x in base;
    assert v in w.cache || (v, true) in base;
  }

  lemma StepKeepsAwaits(flow: Flow, start: Cache, r: Value, w: Walk)
    requires Ok(flow, start, w) && Awaits(r, w) && w.stack != []
    ensures Awaits(r, Step(flow, w))
  {
    var x := w.stack[|w.stack| - 1];
    var rest := w.stack[..|w.stack| - 1];
    assert w.stack == rest + [x];
    if x !in w.visited && !x.1 {
      OpenKeepsAwaits(flow, r, w, Step(flow, w), x.0, rest, if x.0 in w.cache then rest else Push(rest, (x.0, true)));
    } else {
      assert forall y {:trigger y in rest} | y in w.stack && y != x :: y in rest;
    }
  }

  // ----- what holds when the walk starts from an empty cache -----

  // p's update is pending below position i of the stack and p has u as a neighbour.
  ghost predicate HasCallerBelow(flow: Flow, stack: seq<Pair>, i: nat, u: Value) {
    exists j, p :: 0 <= j < i && j < |stack| && stack[j] == (p, true) && u in flow.next(p)
  }

  // Every pair but the root's sits above the pending update of a value that has it as a neighbour.
  ghost predicate IsCallStack(flow: Flow, r: Value, w: Walk) {
    && (forall i {:trigger HasCallerBelow(flow, w.stack, i, w.stack[i].0)} | 0 < i < |w.stack| ::
          HasCallerBelow(flow, w.stack, i, w.stack[i].0))
    && (if r in w.cache then w.stack == [] else w.stack != [] && w.stack[0].0 == r)
  }

  // An expanded value is cached, with its own sources, or about to be.
  ghost predicate IsExpanded(flow: Flow, w: Walk) {
    && (forall v {:trigger (v, false) in w.visited} | (v, false) in w.visited :: v in w.cache || (v, true) in w.stack)
    && (forall v {:trigger v in w.cache} | v in w.cache :: (v, false) in w.visited && flow.local(v) <= w.cache[v])
  }

  // The neighbours of an expanded value are expanded or pending.
  ghost predicate IsClosed(flow: Flow, w: Walk) {
    forall v, u {:trigger u in flow.next(v)} | (v, false) in w.visited && u in flow.next(v) ::
      (u, false) in w.visited || (u, false) in w.stack
  }

  // a is held by a cached neighbour of a value whose update is still pending.
  ghost predicate IsOwed(flow: Flow, w: Walk, a: Value) {
    exists p, u :: (p, true) in w.stack && u in flow.next(p) && u in w.cache && a in w.cache[u]
  }

  // Whatever is cached has reached the root, or is still owed to a pending update.
  ghost predicate NothingIsLost(flow: Flow, r: Value, w: Walk) {
    forall v, a {:trigger a in w.cache[v]} | v in w.cache && a in w.cache[v] ::
      if r in w.cache then a in w.cache[r] else IsOwed(flow, w, a)
  }

  ghost predicate Progress(flow: Flow, r: Value, w: Walk) {
    IsCallStack(flow, r, w) && IsExpanded(flow, w) && IsClosed(flow, w) && NothingIsLost(flow, r, w)
  }

  lemma BelowKept(flow: Flow, stack: seq<Pair>, stack': seq<Pair>, i: nat, u: Value)
    requires HasCallerBelow(flow, stack, i, u) && i <= |stack| && stack[..i] <= stack'
    ensures HasCallerBelow(flow, stack', i, u)
  {
    var j, p :| 0 <= j < i && stack[j] == (p, true) && u in flow.next(p);
    assert stack'[j] == stack[..i][j];
  }

  lemma StaysOwed(flow: Flow, w: Walk, w': Walk, a: Value)
    requires IsOwed(flow, w, a)
    requires forall p | (p, true) in w.stack :: (p, true) in w'.stack
    requires forall v | v in w.cache :: v in w'.cache && w'.cache[v] == w.cache[v]
    ensures IsOwed(flow, w', a)
  {
    var p, u :| (p, true) in w.stack && u in flow.next(p) && u in w.cache && a in w.cache[u];
    assert (p, true) in w'.stack && u in w'.cache && a in w'.cache[u];
  }

  // A pair that was visited before is dropped.
  ghost predicate Skips(w: Walk, w': Walk, v: Value) {
    w.stack == w'.stack + [(v, false)] && w'.visited == w.visited && w'.cache == w.cache && (v, false) in w.visited
  }

  lemma SkipKeepsCallStack(flow: Flow, r: Value, w: Walk, w': Walk, v: Value)
    requires Skips(w, w', v) && IsCallStack(flow, r, w) && IsExpanded(flow, w)
    ensures IsCallStack(flow, r, w')
  {
    assert w.stack[|w'.stack|] == (v, false);
    assert v in w.cache || (v, true) in w.stack;
    assert (v, true) in w.stack ==> (v, true) in w'.stack;
    forall i | 0 < i < |w'.stack| ensures HasCallerBelow(flow, w'.stack, i, w'.stack[i].0) {
      assert HasCallerBelow(flow, w.stack, i, w.stack[i].0);
      BelowKept(flow, w.stack, w'.stack, i, w.stack[i].0);
    }
  }

  lemma SkipKeepsRest(flow: Flow, r: Value, w: Walk, w': Walk, v: Value)
    requires Skips(w, w', v) && r !in w.cache && IsExpanded(flow, w) && IsClosed(flow, w) && NothingIsLost(flow, r, w)
    ensures IsExpanded(flow, w') && IsClosed(flow, w') && NothingIsLost(flow, r, w')
  {
    assert forall x {:trigger x in w'.stack} | x in w.stack && x != (v, false) :: x in w'.stack;
    forall x, a {:trigger a in w'.cache[x]} | x in w'.cache && a in w'.cache[x] ensures IsOwed(flow, w', a) {
      StaysOwed(flow, w, w', a);
    }
  }

  // Expanding v replaces its pair by its pending update and puts its neighbours above it.
  ghost predicate Expands(flow: Flow, w: Walk, w': Walk, v: Value, rest: seq<Pair>) {
    && w.stack == rest + [(v, false)] && w'.stack == PushAll(rest + [(v, true)], flow.next(v), w.cache)
    && w'.cache == w.cache && w'.visited == w.visited + {(v, false)}
  }

  lemma ExpandShape(flow: Flow, start: Cache, w: Walk, v: Value, rest: seq<Pair>)
    requires Ok(flow, start, w) && IsExpanded(flow, w)
    requires w.stack == rest + [(v, false)] && (v, false) !in w.visited
    ensures Expands(flow, w, Step(flow, w), v, rest) && v !in w.cache && NoDuplicates(rest + [(v, true)])
  {
    assert w.stack[..|w.stack| - 1] == rest;
    assert forall x | x in rest :: x in w.stack;
  }

  lemma ExpandKeepsCallStack(flow: Flow, r: Value, w: Walk, w': Walk, v: Value, rest: seq<Pair>)
    requires Expands(flow, w, w', v, rest) && NoDuplicates(rest + [(v, true)]) && IsCallStack(flow, r, w)
    ensures IsCallStack(flow, r, w')
  {
    var base := rest + [(v, true)];
    forall i | 0 < i < |w'.stack| ensures HasCallerBelow(flow, w'.stack, i, w'.stack[i].0) {
      if i < |base| {
        assert HasCallerBelow(flow, w.stack, i, w.stack[i].0);
        BelowKept(flow, w.stack, w'.stack, i, w.stack[i].0);
      } else {
        PushedAbove(base, flow.next(v), w.cache, i);
        assert w'.stack[|rest|] == base[|rest|];
      }
    }
    assert w'.stack[0] == base[0];
  }

  lemma ExpandKeepsRest(flow: Flow, r: Value, w: Walk, w': Walk, v: Value, rest: seq<Pair>)
    requires Expands(flow, w, w', v, rest) && Progress(flow, r, w)
    ensures IsExpanded(flow, w') && IsClosed(flow, w') && NothingIsLost(flow, r, w')
  {
    var base := rest + [(v, true)];
    assert base[|rest|] == (v, true);
    assert forall x {:trigger x in w'.stack} | x in w.stack && x != (v, false) :: x in base && x in w'.stack;
    forall x, u {:trigger u in flow.next(x)} | (x, false) in w'.visited && u in flow.next(x)
      ensures (u, false) in w'.visited || (u, false) in w'.stack
    {
      if x == v && u in w.cache { assert (u, false) in w.visited; }
    }
    forall x, a {:trigger a in w'.cache[x]} | x in w'.cache && a in w'.cache[x] ensures IsOwed(flow, w', a) {
      StaysOwed(flow, w, w', a);
    }
  }

  lemma {:induction false} PushedAbove(stack: seq<Pair>, us: seq<Value>, cache: Cache, i: nat)
    requires NoDuplicates(stack) && |stack| <= i < |PushAll(stack, us, cache)|
    ensures PushAll(stack, us, cache)[i].0 in us
    decreases us
  {
    var pushed := if us[0] in cache then stack else Push(stack, (us[0], false));
    if |pushed| <= i {
      PushedAbove(pushed, us[1..], cache, i);
    } else {
      assert pushed <= PushAll(pushed, us[1..], cache);
    }
  }

  // Recording v's sources takes its pending update off the stack and caches them.
  ghost predicate Records(flow: Flow, w: Walk, w': Walk, v: Value) {
    && w.stack == w'.stack + [(v, true)] && w'.visited == w.visited + {(v, true)} && v !in w.cache
    && w'.cache == w.cache[v := flow.local(v) + Gather(flow.next(v), w.cache)]
  }

  lemma RecordKeepsCallStack(flow: Flow, r: Value, w: Walk, w': Walk, v: Value)
    requires Records(flow, w, w', v) && NoDuplicates(w.stack) && IsCallStack(flow, r, w)
    ensures IsCallStack(flow, r, w')
    ensures v != r ==> exists p :: (p, true) in w'.stack && v in flow.next(p)
  {
    var top := |w'.stack|;
    assert w.stack[top] == (v, true) && r !in w.cache;
    if top > 0 {
      assert HasCallerBelow(flow, w.stack, 1, w.stack[1].0);
      assert w.stack[0] == (r, true);
      assert HasCallerBelow(flow, w.stack, top, w.stack[top].0);
      var j, p :| 0 <= j < top && w.stack[j] == (p, true) && v in flow.next(p);
      assert w'.stack[j] == (p, true);
    }
    forall i | 0 < i < top ensures HasCallerBelow(flow, w'.stack, i, w'.stack[i].0) {
      assert HasCallerBelow(flow, w.stack, i, w.stack[i].0);
      BelowKept(flow, w.stack, w'.stack, i, w.stack[i].0);
    }
  }

  lemma RecordKeepsExpanded(flow: Flow, w: Walk, w': Walk, v: Value)
    requires Records(flow, w, w', v) && (v, false) in w.visited && IsExpanded(flow, w) && IsClosed(flow, w)
    ensures IsExpanded(flow, w') && IsClosed(flow, w')
  {
    assert forall x {:trigger x in w'.stack} | x in w.stack && x != (v, true) :: x in w'.stack;
  }

  // What was owed to v is handed on to a value that waits for v.
  lemma RecordLosesNothing(flow: Flow, r: Value, w: Walk, w': Walk, v: Value)
    requires Records(flow, w, w', v) && r !in w.cache && NothingIsLost(flow, r, w)
    requires if v == r then w'.stack == [] else exists p :: (p, true) in w'.stack && v in flow.next(p)
    ensures NothingIsLost(flow, r, w')
  {
    assert forall x | x in w.stack && x != (v, true) :: x in w'.stack;
    assert w'.cache[v] == flow.local(v) + Gather(flow.next(v), w.cache);
    forall x, a {:trigger a in w'.cache[x]} | x in w'.cache && a in w'.cache[x]
      ensures if v == r then a in w'.cache[v] else IsOwed(flow, w', a)
    {
      if x != v {
        assert a in w.cache[x];
        var p, u :| (p, true) in w.stack && u in flow.next(p) && u in w.cache && a in w.cache[u];
        if p == v {
          assert a in w'.cache[v];
        } else {
          assert (p, true) in w'.stack && u in w'.cache && a in w'.cache[u];
        }
      }
    }
  }

  lemma StepKeepsProgress(flow: Flow, start: Cache, r: Value, w: Walk)
    requires Ok(flow, start, w) && Progress(flow, r, w) && w.stack != []
    ensures Progress(flow, r, Step(flow, w))
  {
    var w' := Step(flow, w);
    var (v, canUpdate) := w.stack[|w.stack| - 1];
    var rest := w.stack[..|w.stack| - 1];
    assert w.stack == rest + [(v, canUpdate)] && (v, canUpdate) in w.stack;
    if (v, canUpdate) in w.visited {
      SkipKeepsCallStack(flow, r, w, w', v);
      SkipKeepsRest(flow, r, w, w', v);
    } else if canUpdate {
      RecordKeepsCallStack(flow, r, w, w', v);
      RecordKeepsExpanded(flow, w, w', v);
      RecordLosesNothing(flow, r, w, w', v);
    } else {
      ExpandShape(flow, start, w, v, rest);
      ExpandKeepsCallStack(flow, r, w, w', v, rest);
      ExpandKeepsRest(flow, r, w, w', v, rest);
    }
  }

  lemma FinishedIsComplete(flow: Flow, start: Cache, r: Value, w: Walk)
    requires Ok(flow, start, w) && Progress(flow, r, w) && w.stack == []
    ensures r in w.cache && AreSources(flow, r, w.cache[r])
  {
    var expanded := set x | x in w.visited && !x.1 :: x.0;
    forall v, u | v in expanded && u in flow.next(v) ensures u in expanded {
      assert (v, false) in w.visited;
      assert (u, false) in w.visited;
    }
    forall a | IsSource(flow, r, a) ensures a in w.cache[r] {
      var v: Value :| Reaches(flow.next, r, v) && a in flow.local(v);
      assert (r, false) in w.visited;
      ClosedContains(flow.next, expanded, r, v);
      assert (v, false) in w.visited;
      assert a in w.cache[v];
    }
  }

  // ----- the whole walk -----

  // What every iteration of a walk from r keeps; a walk with no earlier results keeps more.
  ghost predicate Invariant(flow: Flow, start: Cache, r: Value, w: Walk) {
    && Ok(flow, start, w) && Awaits(r, w)
    && (start == map[] ==> Progress(flow, r, w))
  }

  lemma StartHoldsInvariant(flow: Flow, start: Cache, r: Value)
    requires r in flow.values && r !in start && Sound(flow, start)
    ensures Invariant(flow, start, r, Walk([(r, false)], {}, start))
  {
  }

  lemma StepKeepsInvariant(flow: Flow, start: Cache, r: Value, w: Walk)
    requires flow.WellFormed() && Invariant(flow, start, r, w) && w.stack != []
    ensures Invariant(flow, start, r, Step(flow, w))
  {
    StepKeepsOk(flow, start, w);
    StepKeepsAwaits(flow, start, r, w);
    if start == map[] { StepKeepsProgress(flow, start, r, w); }
  }

  function Pairs(flow: Flow): set<Pair> {
    set v, b | v in flow.values && b in {false, true} :: (v, b)
  }

  // No pair is expanded twice, and an iteration that expands none shortens the worklist.
  lemma StepTerminates(flow: Flow, start: Cache, w: Walk)
    requires Ok(flow, start, w) && w.stack != []
    ensures |Pairs(flow) - Step(flow, w).visited| <= |Pairs(flow) - w.visited|
    ensures |Pairs(flow) - Step(flow, w).visited| < |Pairs(flow) - w.visited| || |Step(flow, w).stack| < |w.stack|
  {
    var x := w.stack[|w.stack| - 1];
    if x !in w.visited {
      var (v, b) := x;
      assert x in w.stack && v in flow.values && b in {false, true};
      assert (v, b) in Pairs(flow);
      assert x in Pairs(flow) - w.visited;
      assert Pairs(flow) - Step(flow, w).visited == Pairs(flow) - w.visited - {x};
    }
  }

  // What one turn of the loop needs: the value on top is known, and the step keeps the
  // invariant and lowers the measure.
  lemma StepAdvances(flow: Flow, start: Cache, r: Value, w: Walk)
    requires flow.WellFormed() && Invariant(flow, start, r, w) && w.stack != []
    ensures w.stack[|w.stack| - 1].0 in flow.values
    ensures Invariant(flow, start, r, Step(flow, w))
    ensures |Pairs(flow) - Step(flow, w).visited| <= |Pairs(flow) - w.visited|
    ensures |Pairs(flow) - Step(flow, w).visited| < |Pairs(flow) - w.visited| || |Step(flow, w).stack| < |w.stack|
  {
    assert w.stack[|w.stack| - 1] in w.stack;
    StepKeepsInvariant(flow, start, r, w);
    StepTerminates(flow, start, w);
  }

  // The root's entry exists, earlier entries are as they were, and without earlier entries
  // the root's is exactly what can be reached.
  lemma FinishedWalk(flow: Flow, start: Cache, r: Value, w: Walk)
    requires Invariant(flow, start, r, w) && w.stack == []
    ensures Sound(flow, w.cache) && Kept(start, w.cache) && r in w.cache
    ensures start == map[] ==> AreSources(flow, r, w.cache[r])
  {
    if start == map[] { FinishedIsComplete(flow, start, r, w); }
  }
}
