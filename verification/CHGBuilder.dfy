/** The class hierarchy graph: groups of related classes and the numbering of their virtual
    functions. */
module CHGBuilder {
  import opened Concatenation
  import opened Reachability

  type Fun = nat

  // The classes; edges are known at both ends.
  datatype ClassGraph = ClassGraph(classes: set<Node>, outs: Successors, ins: Successors)
  {
    ghost predicate WellFormed() {
      && (forall n: Node, m: Node {:trigger m in outs(n)} | m in outs(n) :: n in ins(m) && n in classes && m in classes)
      && (forall n: Node, m: Node {:trigger m in ins(n)} | m in ins(n) :: n in outs(m) && n in classes && m in classes)
    }
  }

  // ----- groups -----

  function Neighbours(g: ClassGraph): Successors {
    (n: Node) => g.outs(n) + g.ins(n)
  }

  ghost predicate Connected(g: ClassGraph, u: Node, v: Node) {
    Reaches(Neighbours(g), u, v)
  }

  lemma {:induction false} ConnectedPath(g: ClassGraph, p: seq<Node>)
    requires g.WellFormed() && IsPath(Neighbours(g), p)
    ensures Connected(g, p[|p| - 1], p[0])
  {
    var next := Neighbours(g);
    ReachesItself(next, p[0]);
    if |p| > 1 {
      ConnectedPath(g, p[1..]);
      assert p[1] in next(p[0]) && p[0] in next(p[1]);
      ReachesThrough(next, p[1], p[0], p[0]);
      ReachesTransitive(next, p[|p| - 1], p[1], p[0]);
    }
  }

  // Being connected is an equivalence.
  lemma ConnectedIsEquivalence(g: ClassGraph, u: Node, v: Node, w: Node)
    requires g.WellFormed()
    ensures Connected(g, u, u)
    ensures Connected(g, u, v) ==> Connected(g, v, u)
    ensures Connected(g, u, v) && Connected(g, v, w) ==> Connected(g, u, w)
  {
    var next := Neighbours(g);
    ReachesItself(next, u);
    if Connected(g, u, v) {
      var p :| IsPath(next, p) && p[0] == u && p[|p| - 1] == v;
      ConnectedPath(g, p);
      if Connected(g, v, w) { ReachesTransitive(next, u, v, w); }
    }
  }

  ghost predicate IsComponent(g: ClassGraph, group: set<Node>) {
    exists root :: root in group && forall v {:trigger v in group} :: v in group <==> Connected(g, root, v)
  }

  ghost predicate IsClosed(g: ClassGraph, s: set<Node>) {
    forall x, y {:trigger x in s, y in Neighbours(g)(x)} | x in s && y in Neighbours(g)(x) :: y in s
  }

  // What the loop over the stack keeps: everything is connected to the root, and what is in
  // the group is expanded or on the stack.
  ghost predicate IsSearch(g: ClassGraph, root: Node, group: set<Node>, seen: set<Node>, stack: seq<Node>) {
    && (root in group || root in stack)
    && (forall v {:trigger v in group} | v in group :: Connected(g, root, v) && (v in seen || v in stack))
    && (forall v {:trigger v in stack} | v in stack :: Connected(g, root, v))
    && seen <= group
    && (forall x, y {:trigger x in seen, y in Neighbours(g)(x)} | x in seen && y in Neighbours(g)(x) :: y in group)
  }

  lemma SearchSkips(g: ClassGraph, root: Node, group: set<Node>, seen: set<Node>, stack: seq<Node>, v: Node)
    requires IsSearch(g, root, group, seen, stack + [v]) && v in seen
    ensures IsSearch(g, root, group + {v}, seen, stack)
  {
    assert forall x | x in stack + [v] :: x in stack || x == v;
    assert forall x | x in stack :: x in stack + [v];
  }

  lemma SearchExpands(g: ClassGraph, root: Node, group: set<Node>, seen: set<Node>, stack: seq<Node>, v: Node,
                      us: seq<Node>)
    requires IsSearch(g, root, group, seen, stack + [v]) && us == Neighbours(g)(v)
    ensures IsSearch(g, root, group + {v} + (set u | u in us), seen + {v}, stack + us)
  {
    assert v in stack + [v];
    assert forall x | x in stack + [v] :: x in stack || x == v;
    assert forall x | x in stack :: x in stack + [v];
    forall u | u in us ensures Connected(g, root, u) {
      ReachesItself(Neighbours(g), u);
      ReachesThrough(Neighbours(g), v, u, u);
      ReachesTransitive(Neighbours(g), root, v, u);
    }
  }

  lemma SearchEnds(g: ClassGraph, root: Node, group: set<Node>, seen: set<Node>)
    requires IsSearch(g, root, group, seen, [])
    ensures seen == group && IsClosed(g, group) && IsComponent(g, group)
  {
    forall v {:trigger v in group} ensures v in group <==> Connected(g, root, v) {
      if Connected(g, root, v) { ClosedContains(Neighbours(g), group, root, v); }
    }
  }

  // Neighbours go on the stack and into the group.
  method PushNeighbours(us: seq<Node>, below: seq<Node>, before: set<Node>) returns (stack: seq<Node>, group: set<Node>)
    ensures stack == below + us && group == before + set u | u in us
  {
    stack, group := below, before;
    for i := 0 to |us|
      invariant stack == below + us[..i] && group == before + set u | u in us[..i]
    {
      assert us[..i + 1] == us[..i] + [us[i]];
      stack, group := stack + [us[i]], group + {us[i]};
    }
    assert us[..|us|] == us;
  }

  lemma Pushed(below: seq<Node>, before: set<Node>, outs: seq<Node>, ins: seq<Node>, stack: seq<Node>, group: set<Node>)
    requires stack == below + outs + ins && group == before + (set u | u in outs) + (set u | u in ins)
    ensures stack == below + (outs + ins) && group == before + set u | u in outs + ins
  {
  }

  // The state of the loop over the stack.
  datatype Search = Search(stack: seq<Node>, group: set<Node>, visited: set<Node>)

  // One iteration: the top of the stack joins the group, and its neighbours do if it was not
  // visited yet.
  ghost predicate Expanded(g: ClassGraph, s: Search, s': Search)
    requires s.stack != []
  {
    var v, below := s.stack[|s.stack| - 1], s.stack[..|s.stack| - 1];
    if v in s.visited then s' == Search(below, s.group + {v}, s.visited)
    else
      s' == Search(below + Neighbours(g)(v), s.group + {v} + (set u | u in Neighbours(g)(v)), s.visited + {v})
  }

  ghost predicate IsSearchFrom(g: ClassGraph, root: Node, before: set<Node>, s: Search) {
    before <= s.visited && IsSearch(g, root, s.group, s.visited - before, s.stack)
  }

  // The classes connected to root; none of them was visited before.
  method CollectGroup(g: ClassGraph, root: Node, before: set<Node>) returns (group: set<Node>, visited: set<Node>)
    requires g.WellFormed() && root in g.classes && root !in before && IsClosed(g, before)
    ensures IsComponent(g, group) && IsClosed(g, group) && root in group && group !! before && group <= g.classes
    ensures visited == before + group
  {
    var s := Search([root], {}, before);
    ReachesItself(Neighbours(g), root);
    while s.stack != []
      invariant IsSearchFrom(g, root, before, s)
      decreases |g.classes - s.visited|, |s.stack|
    {
      ghost var s0 := s;
      s := Expand(g, s);
      ExpandKeepsSearch(g, root, before, s0, s);
    }
    group, visited := s.group, s.visited;
    SearchEnds(g, root, group, visited - before);
    SearchStays(g, root, group, visited - before);
    PutTogether(before, group, visited);
  }

  lemma PutTogether(before: set<Node>, group: set<Node>, visited: set<Node>)
    requires before <= visited && visited - before == group
    ensures visited == before + group && group !! before
  {
  }

  method Expand(g: ClassGraph, s: Search) returns (s': Search)
    requires s.stack != []
    ensures Expanded(g, s, s')
  {
    var v := s.stack[|s.stack| - 1];
    var stack, group := s.stack[..|s.stack| - 1], s.group + {v};
    if v in s.visited { return Search(stack, group, s.visited); }
    ghost var below, others := stack, group;
    stack, group := PushNeighbours(g.outs(v), stack, group);
    stack, group := PushNeighbours(g.ins(v), stack, group);
    Pushed(below, others, g.outs(v), g.ins(v), stack, group);
    s' := Search(stack, group, s.visited + {v});
  }

  lemma ExpandKeepsSearch(g: ClassGraph, root: Node, before: set<Node>, s: Search, s': Search)
    requires g.WellFormed() && root in g.classes && root !in before && IsClosed(g, before)
    requires s.stack != [] && IsSearchFrom(g, root, before, s) && Expanded(g, s, s')
    ensures IsSearchFrom(g, root, before, s')
    ensures |g.classes - s'.visited| < |g.classes - s.visited| ||
            (s'.visited == s.visited && |s'.stack| < |s.stack|)
  {
    var v, below, seen := s.stack[|s.stack| - 1], s.stack[..|s.stack| - 1], s.visited - before;
    assert s.stack == below + [v];
    TopIsNew(g, root, before, s);
    if v in s.visited {
      SearchSkips(g, root, s.group, seen, below, v);
    } else {
      SearchExpands(g, root, s.group, seen, below, v, Neighbours(g)(v));
      SeenNext(before, s.visited, v);
    }
  }

  lemma SeenNext(before: set<Node>, visited: set<Node>, v: Node)
    requires before <= visited && v !in before
    ensures visited + {v} - before == visited - before + {v}
  {
  }

  lemma TopIsNew(g: ClassGraph, root: Node, before: set<Node>, s: Search)
    requires g.WellFormed() && root in g.classes && root !in before && IsClosed(g, before)
    requires s.stack != [] && IsSearchFrom(g, root, before, s)
    ensures var v := s.stack[|s.stack| - 1];
            v !in before && (v !in s.visited ==> |g.classes - (s.visited + {v})| < |g.classes - s.visited|)
  {
    var v := s.stack[|s.stack| - 1];
    assert v in s.stack;
    NotBefore(g, root, before, v);
    if v !in s.visited {
      assert v in g.classes - s.visited;
      assert g.classes - (s.visited + {v}) == g.classes - s.visited - {v};
    }
  }

  lemma SearchStays(g: ClassGraph, root: Node, group: set<Node>, seen: set<Node>)
    requires g.WellFormed() && root in g.classes && IsSearch(g, root, group, seen, [])
    ensures group <= g.classes && root in group
  {
    forall v | v in group ensures v in g.classes {
      NotBefore(g, root, {}, v);
    }
  }

  // What is connected to an unvisited class is a class and unvisited.
  lemma NotBefore(g: ClassGraph, root: Node, before: set<Node>, v: Node)
    requires g.WellFormed() && root in g.classes && root !in before && IsClosed(g, before)
    requires Connected(g, root, v)
    ensures v in g.classes && v !in before
  {
    ConnectedIsEquivalence(g, root, v, v);
    if v in before { ClosedContains(Neighbours(g), before, v, root); }
    ClosedContains(Neighbours(g), g.classes, root, v);
  }

  // The groups are components, pairwise disjoint, and cover the classes seen so far.
  ghost predicate IsPartition(g: ClassGraph, groups: seq<set<Node>>, covered: set<Node>) {
    && (forall i {:trigger groups[i]} | 0 <= i < |groups| :: IsComponent(g, groups[i]))
    && AreDisjoint(groups, covered)
    && (forall v {:trigger InSomeGroup(groups, v)} | v in covered :: InSomeGroup(groups, v))
  }

  ghost predicate AreDisjoint(groups: seq<set<Node>>, covered: set<Node>) {
    && (forall i {:trigger groups[i]} | 0 <= i < |groups| :: groups[i] <= covered)
    && (forall i, j {:trigger groups[i], groups[j]} | 0 <= i < j < |groups| :: groups[i] !! groups[j])
  }

  ghost predicate InSomeGroup(groups: seq<set<Node>>, v: Node) {
    exists i :: 0 <= i < |groups| && v in groups[i]
  }

  lemma ComponentIsClass(g: ClassGraph, group: set<Node>, u: Node, v: Node)
    requires g.WellFormed() && IsComponent(g, group) && u in group
    ensures v in group <==> Connected(g, u, v)
  {
    var root :| root in group && forall x {:trigger x in group} :: x in group <==> Connected(g, root, x);
    ConnectedIsEquivalence(g, root, u, v);
    ConnectedIsEquivalence(g, u, root, v);
  }

  lemma GroupIsUnique(groups: seq<set<Node>>, covered: set<Node>, i: nat, j: nat, u: Node)
    requires AreDisjoint(groups, covered) && i < |groups| && j < |groups| && u in groups[i] && u in groups[j]
    ensures i == j
  {
    var a, b := groups[i], groups[j];
    assert u in a && u in b;
  }

  ghost predicate ShareGroup(groups: seq<set<Node>>, u: Node, v: Node) {
    exists i :: 0 <= i < |groups| && u in groups[i] && v in groups[i]
  }

  // Two classes share a group exactly when they are connected.
  lemma GroupsAreComponents(g: ClassGraph, groups: seq<set<Node>>, u: Node, v: Node)
    requires g.WellFormed() && IsPartition(g, groups, g.classes) && u in g.classes && v in g.classes
    ensures Connected(g, u, v) <==> ShareGroup(groups, u, v)
  {
    assert InSomeGroup(groups, u);
    var i :| 0 <= i < |groups| && u in groups[i];
    ComponentIsClass(g, groups[i], u, v);
    if ShareGroup(groups, u, v) {
      var j :| 0 <= j < |groups| && u in groups[j] && v in groups[j];
      GroupIsUnique(groups, g.classes, i, j, u);
    }
  }

  // ----- virtual functions -----

  ghost function FunsOf(vectors: Node -> seq<seq<Fun>>, group: set<Node>): set<Fun> {
    set n, f | n in group && f in Concat(vectors(n)) :: f
  }

  // By demangled name, then by address.
  predicate Less(nameOf: Fun -> nat, a: Fun, b: Fun) {
    nameOf(a) < nameOf(b) || (nameOf(a) == nameOf(b) && a < b)
  }

  ghost predicate IsSortedByName(nameOf: Fun -> nat, list: seq<Fun>) {
    forall i, j {:trigger list[i], list[j]} | 0 <= i < j < |list| :: Less(nameOf, list[i], list[j])
  }

  ghost predicate IsNameList(nameOf: Fun -> nat, list: seq<Fun>, funs: set<Fun>) {
    IsSortedByName(nameOf, list) && forall f :: f in list <==> f in funs
  }

  method InsertByName(nameOf: Fun -> nat, list: seq<Fun>, ghost funs: set<Fun>, f: Fun) returns (r: seq<Fun>)
    requires IsNameList(nameOf, list, funs) && f !in funs
    ensures IsNameList(nameOf, r, funs + {f})
  {
    var at := 0;
    while at < |list| && Less(nameOf, list[at], f)
      invariant 0 <= at <= |list| && forall i {:trigger list[i]} | 0 <= i < at :: Less(nameOf, list[i], f)
    {
      at := at + 1;
    }
    r := list[..at] + [f] + list[at..];
    InsertedIsSorted(nameOf, list, funs, f, at);
    assert forall x :: x in r <==> x in list[..at] || x == f || x in list[at..];
    assert list == list[..at] + list[at..];
  }

  lemma InsertedIsSorted(nameOf: Fun -> nat, list: seq<Fun>, funs: set<Fun>, f: Fun, at: nat)
    requires IsNameList(nameOf, list, funs) && f !in funs && at <= |list|
    requires forall i {:trigger list[i]} | 0 <= i < at :: Less(nameOf, list[i], f)
    requires at < |list| ==> !Less(nameOf, list[at], f)
    ensures IsSortedByName(nameOf, list[..at] + [f] + list[at..])
  {
    forall i {:trigger list[i]} | at <= i < |list| ensures Less(nameOf, f, list[i]) {
      assert list[at] in list && list[i] in list;
      if at < i { assert Less(nameOf, list[at], list[i]); }
    }
    var r := list[..at] + [f] + list[at..];
    assert r[at] == f;
    forall i, j {:trigger r[i], r[j]} | 0 <= i < j < |r| ensures Less(nameOf, r[i], r[j]) {
      if i < at { assert r[i] == list[i]; }
      if i > at { assert r[i] == list[i - 1]; }
      if j < at { assert r[j] == list[j]; }
      if j > at { assert r[j] == list[j - 1]; }
    }
  }

  // IDs from base on are handed out along order, and the last one counts.
  ghost predicate IsNumbered(ids: map<Fun, nat>, base: nat, order: seq<Fun>) {
    && (forall f {:trigger f in ids} :: f in ids <==> f in order)
    && (forall f {:trigger ids[f]} | f in ids :: base <= ids[f] < base + |order| && order[ids[f] - base] == f)
    && (forall k {:trigger order[k]} | 0 <= k < |order| :: order[k] in ids && base + k <= ids[order[k]])
  }

  lemma NumberNext(ids: map<Fun, nat>, base: nat, order: seq<Fun>, f: Fun)
    requires IsNumbered(ids, base, order)
    ensures IsNumbered(ids[f := base + |order|], base, order + [f])
  {
    var order' := order + [f];
    assert order'[|order|] == f;
    forall k {:trigger order'[k]} | 0 <= k < |order'|
      ensures order'[k] in ids[f := base + |order|] && base + k <= ids[f := base + |order|][order'[k]]
    {
      if k < |order| { assert order'[k] == order[k]; }
    }
  }

  lemma TakeNext(order: seq<Fun>, list: seq<Fun>, i: nat)
    requires i < |list|
    ensures order + list[..i] + [list[i]] == order + list[..i + 1]
  {
  }

  // Distinct functions have distinct IDs.
  lemma IdsAreDistinct(ids: map<Fun, nat>, base: nat, order: seq<Fun>, f: Fun, h: Fun)
    requires IsNumbered(ids, base, order) && f in ids && h in ids && f != h
    ensures ids[f] != ids[h]
  {
    assert order[ids[f] - base] == f && order[ids[h] - base] == h;
  }

  // No function of that name in the group occurs in a later group.
  ghost predicate KeepsNumbers(lists: seq<seq<Fun>>, i: nat, nameOf: Fun -> nat, name: nat)
    requires i < |lists|
  {
    forall f, j | f in lists[i] && nameOf(f) == name && i < j < |lists| :: f !in lists[j]
  }

  // Function k of group i has the ID at which the group's IDs start, plus its position.
  ghost predicate HasOwnNumber(ids: map<Fun, nat>, base: nat, lists: seq<seq<Fun>>, i: nat, k: nat)
    requires i < |lists| && k < |lists[i]|
  {
    lists[i][k] in ids && ids[lists[i][k]] == base + Start(lists, i) + k
  }

  // The functions of one name in one group stand at consecutive positions of the group's
  // list. Each has the ID of its position if and only if no later group renumbers one.
  lemma IdsAreConsecutive(ids: map<Fun, nat>, base: nat, lists: seq<seq<Fun>>, i: nat, funs: set<Fun>,
                          nameOf: Fun -> nat, name: nat)
    requires IsNumbered(ids, base, Concat(lists)) && i < |lists| && IsNameList(nameOf, lists[i], funs)
    ensures forall a, k, b | 0 <= a <= k <= b < |lists[i]| && nameOf(lists[i][a]) == nameOf(lists[i][b]) == name ::
              nameOf(lists[i][k]) == name
    ensures (forall k | 0 <= k < |lists[i]| && nameOf(lists[i][k]) == name :: HasOwnNumber(ids, base, lists, i, k)) <==>
            KeepsNumbers(lists, i, nameOf, name)
  {
    var list := lists[i];
    forall a, k, b | 0 <= a <= k <= b < |list| && nameOf(list[a]) == nameOf(list[b]) == name
      ensures nameOf(list[k]) == name
    {
      if a < k { assert Less(nameOf, list[a], list[k]); }
      if k < b { assert Less(nameOf, list[k], list[b]); }
    }
    if KeepsNumbers(lists, i, nameOf, name) {
      forall k | 0 <= k < |list| && nameOf(list[k]) == name ensures HasOwnNumber(ids, base, lists, i, k) {
        InBlock(lists, i, k);
        LastPosition(ids, base, lists, i, k, funs, nameOf, name);
      }
    } else {
      var f, j :| f in list && nameOf(f) == name && i < j < |lists| && f in lists[j];
      var k :| 0 <= k < |list| && list[k] == f;
      LaterGroupRenumbers(ids, base, lists, i, k, j);
    }
  }

  lemma LaterGroupRenumbers(ids: map<Fun, nat>, base: nat, lists: seq<seq<Fun>>, i: nat, k: nat, j: nat)
    requires IsNumbered(ids, base, Concat(lists)) && i < j < |lists| && k < |lists[i]| && lists[i][k] in lists[j]
    ensures !HasOwnNumber(ids, base, lists, i, k)
  {
    var l :| 0 <= l < |lists[j]| && lists[j][l] == lists[i][k];
    InBlock(lists, j, l);
    StartMonotone(lists, i, j);
  }

  lemma LastPosition(ids: map<Fun, nat>, base: nat, lists: seq<seq<Fun>>, i: nat, k: nat, funs: set<Fun>,
                     nameOf: Fun -> nat, name: nat)
    requires IsNumbered(ids, base, Concat(lists)) && i < |lists| && k < |lists[i]|
    requires IsNameList(nameOf, lists[i], funs) && KeepsNumbers(lists, i, nameOf, name)
    requires nameOf(lists[i][k]) == name
    ensures lists[i][k] in ids && ids[lists[i][k]] == base + Start(lists, i) + k
  {
    var order, f := Concat(lists), lists[i][k];
    InBlock(lists, i, k);
    var at := ids[f] - base;
    assert order[at] == f && Start(lists, i) + k <= at;
    var j := BlockOf(lists, at);
    var l := at - Start(lists, j);
    InBlock(lists, j, l);
    if j < i { StartMonotone(lists, j, i); }
    assert lists[j][l] == f && f in lists[j];
    NameListsHaveNoDuplicates(nameOf, lists[i], funs);
  }

  lemma NameListsHaveNoDuplicates(nameOf: Fun -> nat, list: seq<Fun>, funs: set<Fun>)
    requires IsNameList(nameOf, list, funs)
    ensures forall i, j | 0 <= i < j < |list| :: list[i] != list[j]
  {
    assert forall i, j | 0 <= i < j < |list| :: Less(nameOf, list[i], list[j]);
  }

  class CHGBuilder {
    const g: ClassGraph
    const vectors: Node -> seq<seq<Fun>>
    const nameOf: Fun -> nat
    var virtualFunctionToIDMap: map<Fun, nat>
    var vfID: nat

    constructor (g: ClassGraph, vectors: Node -> seq<seq<Fun>>, nameOf: Fun -> nat)
      ensures this.g == g && this.vectors == vectors && this.nameOf == nameOf
      ensures virtualFunctionToIDMap == map[] && vfID == 0
    {
      this.g, this.vectors, this.nameOf := g, vectors, nameOf;
      virtualFunctionToIDMap, vfID := map[], 0;
    }

    method CollectFunctions(group: set<Node>) returns (funs: set<Fun>)
      ensures funs == FunsOf(vectors, group)
    {
      funs := {};
      var rest := group;
      while rest != {}
        invariant rest <= group && funs == FunsOf(vectors, group - rest)
      {
        var n: Node :| n in rest;
        var vecs := vectors(n);
        ghost var before := funs;
        for i := 0 to |vecs|
          invariant funs == before + set f | f in Concat(vecs[..i])
        {
          StartNext(vecs, i);
          for k := 0 to |vecs[i]|
            invariant funs == before + (set f | f in Concat(vecs[..i])) + set f | f in vecs[i][..k]
          {
            assert vecs[i][..k + 1] == vecs[i][..k] + [vecs[i][k]];
            funs := funs + {vecs[i][k]};
          }
          assert vecs[i][..|vecs[i]|] == vecs[i];
        }
        assert vecs[..|vecs|] == vecs;
        assert group - (rest - {n}) == group - rest + {n};
        rest := rest - {n};
      }
      assert group - rest == group;
    }

    method SortByName(funs: set<Fun>) returns (list: seq<Fun>)
      ensures IsNameList(nameOf, list, funs)
    {
      list := [];
      var rest := funs;
      while rest != {}
        invariant rest <= funs && IsNameList(nameOf, list, funs - rest)
      {
        var f :| f in rest;
        list := InsertByName(nameOf, list, funs - rest, f);
        assert funs - (rest - {f}) == funs - rest + {f};
        rest := rest - {f};
      }
      assert funs - rest == funs;
    }

    method AssignIDs(list: seq<Fun>, ghost base: nat, ghost order: seq<Fun>)
      requires IsNumbered(virtualFunctionToIDMap, base, order) && vfID == base + |order|
      modifies `virtualFunctionToIDMap, `vfID
      ensures IsNumbered(virtualFunctionToIDMap, base, order + list) && vfID == base + |order + list|
    {
      ghost var done := order;
      for i := 0 to |list|
        invariant done == order + list[..i]
        invariant IsNumbered(virtualFunctionToIDMap, base, done) && vfID == base + |done|
      {
        AssignID(list[i], base, done);
        TakeNext(order, list, i);
        done := done + [list[i]];
      }
      assert list[..|list|] == list;
    }

    method AssignID(f: Fun, ghost base: nat, ghost order: seq<Fun>)
      requires IsNumbered(virtualFunctionToIDMap, base, order) && vfID == base + |order|
      modifies `virtualFunctionToIDMap, `vfID
      ensures IsNumbered(virtualFunctionToIDMap, base, order + [f]) && vfID == base + |order + [f]|
    {
      NumberNext(virtualFunctionToIDMap, base, order, f);
      virtualFunctionToIDMap := virtualFunctionToIDMap[f := vfID];
      vfID := vfID + 1;
    }

    // The functions of a group, by name, get the next IDs.
    method NumberGroup(group: set<Node>, ghost base: nat, ghost order: seq<Fun>) returns (ghost list: seq<Fun>)
      requires IsNumbered(virtualFunctionToIDMap, base, order) && vfID == base + |order|
      modifies `virtualFunctionToIDMap, `vfID
      ensures IsNumbered(virtualFunctionToIDMap, base, order + list) && vfID == base + |order + list|
      ensures IsNameList(nameOf, list, FunsOf(vectors, group))
    {
      var funs := CollectFunctions(group);
      var sorted := SortByName(funs);
      AssignIDs(sorted, base, order);
      list := sorted;
    }

    // Groups are the components of the graph, and along the groups' lists of functions, each
    // sorted by name, IDs are handed out one after the other.
    method BuildVirtualFunctionToIDMap() returns (ghost groups: seq<set<Node>>, ghost lists: seq<seq<Fun>>)
      requires g.WellFormed() && virtualFunctionToIDMap == map[]
      modifies `virtualFunctionToIDMap, `vfID
      ensures IsPartition(g, groups, g.classes)
      ensures AreNameLists(nameOf, vectors, lists, groups)
      ensures IsNumbered(virtualFunctionToIDMap, old(vfID), Concat(lists))
      ensures vfID == old(vfID) + |Concat(lists)|
    {
      groups, lists := [], [];
      ghost var base := vfID;
      var visited: set<Node>, rest := {}, g.classes;
      while rest != {}
        invariant Remaining(g.classes, rest, visited)
        invariant IsClosed(g, visited) && IsPartition(g, groups, visited)
        invariant AreNameLists(nameOf, vectors, lists, groups)
        invariant IsNumbered(virtualFunctionToIDMap, base, Concat(lists)) && vfID == base + |Concat(lists)|
      {
        var n: Node :| n in rest;
        ghost var before := visited;
        if n !in visited {
          var group;
          group, visited := CollectGroup(g, n, visited);
          PartitionNext(g, groups, before, group);
          ghost var list := NumberGroup(group, base, Concat(lists));
          ConcatNext(lists, list);
          NameListsNext(nameOf, vectors, lists, groups, list, group);
          groups, lists := groups + [group], lists + [list];
        }
        RemainingNext(g.classes, rest, before, n, visited);
        rest := rest - {n};
      }
      assert visited == g.classes;
    }
  }

  // Every class is visited or still to come.
  ghost predicate Remaining(classes: set<Node>, rest: set<Node>, visited: set<Node>) {
    && rest <= classes && visited <= classes
    && forall v {:trigger v in classes} | v in classes :: v in rest || v in visited
  }

  lemma RemainingNext(classes: set<Node>, rest: set<Node>, before: set<Node>, n: Node, visited: set<Node>)
    requires Remaining(classes, rest, before) && before <= visited <= classes && n in visited
    ensures Remaining(classes, rest - {n}, visited)
  {
  }

  // One list for each group: its functions, by name.
  ghost predicate AreNameLists(nameOf: Fun -> nat, vectors: Node -> seq<seq<Fun>>, lists: seq<seq<Fun>>,
                               groups: seq<set<Node>>) {
    |lists| == |groups| &&
    forall i {:trigger lists[i]} | 0 <= i < |groups| :: IsNameList(nameOf, lists[i], FunsOf(vectors, groups[i]))
  }

  lemma NameListsNext(nameOf: Fun -> nat, vectors: Node -> seq<seq<Fun>>, lists: seq<seq<Fun>>, groups: seq<set<Node>>,
                      list: seq<Fun>, group: set<Node>)
    requires AreNameLists(nameOf, vectors, lists, groups) && IsNameList(nameOf, list, FunsOf(vectors, group))
    ensures AreNameLists(nameOf, vectors, lists + [list], groups + [group])
  {
    var lists', groups' := lists + [list], groups + [group];
    forall i {:trigger lists'[i]} | 0 <= i < |groups'|
      ensures IsNameList(nameOf, lists'[i], FunsOf(vectors, groups'[i]))
    {
      if i < |groups| { assert lists'[i] == lists[i] && groups'[i] == groups[i]; }
    }
  }

  lemma ConcatNext(lists: seq<seq<Fun>>, list: seq<Fun>)
    ensures Concat(lists + [list]) == Concat(lists) + list
  {
    StartNext(lists + [list], |lists|);
    assert (lists + [list])[..|lists|] == lists && (lists + [list])[..|lists| + 1] == lists + [list];
  }

  lemma PartitionNext(g: ClassGraph, groups: seq<set<Node>>, covered: set<Node>, group: set<Node>)
    requires g.WellFormed() && IsPartition(g, groups, covered) && group !! covered
    requires IsComponent(g, group) && IsClosed(g, group) && IsClosed(g, covered)
    ensures IsPartition(g, groups + [group], covered + group) && IsClosed(g, covered + group)
  {
    var groups' := groups + [group];
    forall i {:trigger groups'[i]} | 0 <= i < |groups'| ensures IsComponent(g, groups'[i]) {
      assert groups'[i] == if i < |groups| then groups[i] else group;
    }
    DisjointNext(groups, covered, group);
    CoverNext(groups, covered, group);
    assert forall x, y {:trigger x in covered + group, y in Neighbours(g)(x)} |
        x in covered + group && y in Neighbours(g)(x) :: y in covered + group;
  }

  lemma DisjointNext(groups: seq<set<Node>>, covered: set<Node>, group: set<Node>)
    requires AreDisjoint(groups, covered) && group !! covered
    ensures AreDisjoint(groups + [group], covered + group)
  {
    var groups' := groups + [group];
    assert groups'[|groups|] == group;
    forall i {:trigger groups'[i]} | 0 <= i < |groups'| ensures groups'[i] <= covered + group {
      if i < |groups| { assert groups'[i] == groups[i]; }
    }
    forall i, j {:trigger groups'[i], groups'[j]} | 0 <= i < j < |groups'| ensures groups'[i] !! groups'[j] {
      assert groups'[i] == groups[i];
      if j < |groups| { assert groups'[j] == groups[j]; }
    }
  }

  lemma CoverNext(groups: seq<set<Node>>, covered: set<Node>, group: set<Node>)
    requires forall v {:trigger InSomeGroup(groups, v)} | v in covered :: InSomeGroup(groups, v)
    ensures forall v {:trigger InSomeGroup(groups + [group], v)} | v in covered + group ::
              InSomeGroup(groups + [group], v)
  {
    var groups' := groups + [group];
    assert groups'[|groups|] == group;
    forall v {:trigger InSomeGroup(groups', v)} | v in covered + group ensures InSomeGroup(groups', v) {
      if v in covered {
        assert InSomeGroup(groups, v);
        var i :| 0 <= i < |groups| && v in groups[i];
        assert groups'[i] == groups[i];
      }
    }
  }
}
