/** Functions as blocks of instructions, and the control flow that is left when intrinsic
    instructions are skipped. */
module ControlFlow {
  import opened Reachability

  type FunId = nat

  datatype Target = Direct(callee: FunId) | External | Indirect
  datatype Inst = Intrinsic | Plain | Return | Call(target: Target)
  datatype Block = Block(insts: seq<Inst>, succs: seq<nat>)

  // An instruction is named by its block and its position in it.
  type Loc = (nat, nat)

  // The first block is the entry; flagged says which blocks the dominance information calls
  // unreachable.
  datatype Function = Function(id: FunId, blocks: seq<Block>, flagged: nat -> bool)
  {
    // Blocks end with a terminator, which is no intrinsic, and lead to blocks.
    ghost predicate WellFormed() {
      && |blocks| > 0
      && (forall b {:trigger blocks[b]} | 0 <= b < |blocks| ::
            |blocks[b].insts| > 0 && !blocks[b].insts[|blocks[b].insts| - 1].Intrinsic?)
      && (forall b, s {:trigger s in blocks[b].succs} | 0 <= b < |blocks| && s in blocks[b].succs :: s < |blocks|)
    }

    predicate Has(i: Loc) {
      i.0 < |blocks| && i.1 < |blocks[i.0].insts|
    }

    function At(i: Loc): Inst
      requires Has(i)
    {
      blocks[i.0].insts[i.1]
    }

    predicate IsTerminator(i: Loc)
      requires Has(i)
    {
      i.1 == |blocks[i.0].insts| - 1
    }

    function Fronts(succs: seq<nat>): seq<Loc> {
      seq(|succs|, k requires 0 <= k < |succs| => (succs[k], 0))
    }

    // The instructions that control flow goes on to.
    function Next(i: Loc): seq<Loc>
      requires Has(i)
    {
      if IsTerminator(i) then Fronts(blocks[i.0].succs) else [(i.0, i.1 + 1)]
    }
  }

  lemma NextIsThere(f: Function, i: Loc)
    requires f.WellFormed() && f.Has(i)
    ensures forall j | j in f.Next(i) :: f.Has(j)
  {
    forall j | j in f.Next(i) ensures f.Has(j) {
      if f.IsTerminator(i) {
        assert j.0 in f.blocks[i.0].succs;
      }
    }
  }

  // The first instruction from i on that is no intrinsic; a terminator is none.
  function Skip(f: Function, i: Loc): (r: Loc)
    requires f.WellFormed() && f.Has(i)
    ensures f.Has(r) && !f.At(r).Intrinsic? && r.0 == i.0
    decreases |f.blocks[i.0].insts| - i.1
  {
    if f.At(i).Intrinsic? then Skip(f, (i.0, i.1 + 1)) else i
  }

  // The next instructions with intrinsics erased.
  function NextInsts(f: Function, i: Loc): (r: seq<Loc>)
    requires f.WellFormed() && f.Has(i)
    ensures |r| == |f.Next(i)|
    ensures forall m | m in r :: f.Has(m) && !f.At(m).Intrinsic?
  {
    NextIsThere(f, i);
    seq(|f.Next(i)|, k requires 0 <= k < |f.Next(i)| => Skip(f, f.Next(i)[k]))
  }

  method GetNextInsts(f: Function, i: Loc, before: seq<Loc>) returns (list: seq<Loc>)
    requires f.WellFormed() && f.Has(i)
    ensures list == before + NextInsts(f, i)
    decreases if f.IsTerminator(i) then 1 else 0, |f.blocks[i.0].insts| - i.1
  {
    list := before;
    NextIsThere(f, i);
    if !f.IsTerminator(i) {
      var next := (i.0, i.1 + 1);
      assert f.Next(i)[0] == next;
      if f.At(next).Intrinsic? {
        list := GetNextInsts(f, next, list);
        assert NextInsts(f, next) == NextInsts(f, i);
      } else {
        list := list + [next];
      }
    } else {
      var succs := f.blocks[i.0].succs;
      for k := 0 to |succs|
        invariant list == before + NextInsts(f, i)[..k]
      {
        var next := (succs[k], 0);
        assert f.Next(i)[k] == next && next in f.Next(i);
        if f.At(next).Intrinsic? {
          list := GetNextInsts(f, next, list);
        } else {
          list := list + [next];
        }
        assert NextInsts(f, i)[..k + 1] == NextInsts(f, i)[..k] + [Skip(f, next)];
      }
      assert NextInsts(f, i)[..|succs|] == NextInsts(f, i);
    }
  }

  // ----- erasing intrinsics from paths -----

  ghost predicate IsWalk(f: Function, p: seq<Loc>) {
    && (forall k | 0 <= k < |p| :: f.Has(p[k]))
    && (forall j, k {:trigger p[j], p[k]} | 0 <= j && k == j + 1 < |p| :: p[k] in f.Next(p[j]))
  }

  ghost predicate IsErasedWalk(f: Function, q: seq<Loc>)
    requires f.WellFormed()
  {
    && (forall k | 0 <= k < |q| :: f.Has(q[k]) && !f.At(q[k]).Intrinsic?)
    && (forall j, k {:trigger q[j], q[k]} | 0 <= j && k == j + 1 < |q| :: q[k] in NextInsts(f, q[j]))
  }

  function Erase(f: Function, p: seq<Loc>): seq<Loc>
    requires forall k | 0 <= k < |p| :: f.Has(p[k])
  {
    if p == [] then []
    else (if f.At(p[0]).Intrinsic? then [] else [p[0]]) + Erase(f, p[1..])
  }

  // Erasing the intrinsics of a walk leaves a walk along next instructions.
  lemma {:induction false} ErasedWalkIsWalk(f: Function, p: seq<Loc>)
    requires f.WellFormed() && IsWalk(f, p)
    ensures IsErasedWalk(f, Erase(f, p))
    ensures Erase(f, p) != [] ==> Erase(f, p)[0] == Skip(f, p[0])
  {
    if p != [] {
      var rest := Erase(f, p[1..]);
      ErasedWalkIsWalk(f, p[1..]);
      if |p| > 1 {
        SkipNext(f, p[0], p[1]);
      }
    }
  }

  // What follows an instruction is skipped to from it, or one of its next instructions.
  lemma SkipNext(f: Function, i: Loc, j: Loc)
    requires f.WellFormed() && f.Has(i) && j in f.Next(i)
    ensures f.Has(j)
    ensures if f.At(i).Intrinsic? then Skip(f, i) == Skip(f, j) else Skip(f, j) in NextInsts(f, i)
  {
    NextIsThere(f, i);
    var k :| 0 <= k < |f.Next(i)| && f.Next(i)[k] == j;
    assert NextInsts(f, i)[k] == Skip(f, j);
  }

  // The intrinsics skipped from i on, and where that ends.
  function SkipPath(f: Function, i: Loc): seq<Loc>
    requires f.WellFormed() && f.Has(i)
    decreases |f.blocks[i.0].insts| - i.1
  {
    if f.At(i).Intrinsic? then [i] + SkipPath(f, (i.0, i.1 + 1)) else [i]
  }

  // A walk with one instruction in front.
  lemma OneStepMore(f: Function, i: Loc, p: seq<Loc>)
    requires f.Has(i) && IsWalk(f, p) && p != [] && p[0] in f.Next(i)
    ensures IsWalk(f, [i] + p) && Erase(f, [i] + p) == (if f.At(i).Intrinsic? then [] else [i]) + Erase(f, p)
  {
    var r := [i] + p;
    assert r[1..] == p;
    forall k | 0 <= k < |r| - 1 ensures r[k + 1] in f.Next(r[k]) {
      if k > 0 { assert r[k] == p[k - 1] && r[k + 1] == p[k]; }
    }
  }

  lemma {:induction false} SkipPathLeads(f: Function, i: Loc)
    requires f.WellFormed() && f.Has(i)
    ensures var p := SkipPath(f, i);
            |p| > 0 && p[0] == i && p[|p| - 1] == Skip(f, i) && IsWalk(f, p) && Erase(f, p) == [Skip(f, i)]
    decreases |f.blocks[i.0].insts| - i.1
  {
    var p := SkipPath(f, i);
    if f.At(i).Intrinsic? {
      var j := (i.0, i.1 + 1);
      SkipPathLeads(f, j);
      assert f.Next(i)[0] == j;
      OneStepMore(f, i, SkipPath(f, j));
    } else {
      assert p[1..] == [] && Erase(f, []) == [];
    }
  }

  lemma {:induction false} EraseConcat(f: Function, p: seq<Loc>, q: seq<Loc>)
    requires forall k | 0 <= k < |p| :: f.Has(p[k])
    requires forall k | 0 <= k < |q| :: f.Has(q[k])
    ensures Erase(f, p + q) == Erase(f, p) + Erase(f, q)
  {
    if p == [] {
      assert p + q == q;
    } else {
      EraseConcat(f, p[1..], q);
      assert (p + q)[1..] == p[1..] + q;
    }
  }

  // Two walks of which the second starts where the first ends.
  lemma JoinWalks(f: Function, p: seq<Loc>, q: seq<Loc>)
    requires IsWalk(f, p) && IsWalk(f, q) && p != [] && q != [] && p[|p| - 1] == q[0]
    requires !f.At(q[0]).Intrinsic? && Erase(f, p) == [q[0]]
    ensures var r := p[..|p| - 1] + q; IsWalk(f, r) && Erase(f, r) == Erase(f, q) && r[0] == p[0]
  {
    var front := p[..|p| - 1];
    JoinedIsWalk(f, p, q);
    assert p == front + [q[0]];
    EraseConcat(f, front, [q[0]]);
    assert Erase(f, [q[0]][1..]) == [] && Erase(f, [q[0]]) == [q[0]];
    assert Erase(f, front) == [];
    EraseConcat(f, front, q);
  }

  lemma JoinedIsWalk(f: Function, p: seq<Loc>, q: seq<Loc>)
    requires IsWalk(f, p) && IsWalk(f, q) && p != [] && q != [] && p[|p| - 1] == q[0]
    ensures var r := p[..|p| - 1] + q; IsWalk(f, r) && r[0] == p[0]
  {
    var front := p[..|p| - 1];
    var r := front + q;
    forall k | 0 <= k < |r| - 1 ensures r[k + 1] in f.Next(r[k]) {
      if k + 1 <= |front| {
        assert r[k] == p[k] && r[k + 1] == p[k + 1];
      } else {
        assert r[k] == q[k - |front|] && r[k + 1] == q[k + 1 - |front|];
      }
    }
  }

  // Every walk along next instructions comes from a walk along the control flow.
  lemma {:induction false} WalkBehindErasedWalk(f: Function, q: seq<Loc>) returns (p: seq<Loc>)
    requires f.WellFormed() && q != [] && IsErasedWalk(f, q)
    ensures IsWalk(f, p) && p != [] && p[0] == q[0] && p[|p| - 1] == q[|q| - 1] && Erase(f, p) == q
  {
    if |q| == 1 {
      p := [q[0]];
      assert Erase(f, p[1..]) == [];
    } else {
      var rest := WalkBehindErasedWalk(f, q[1..]);
      assert q[1] in NextInsts(f, q[0]);
      p := WalkToNext(f, q[0], rest);
      assert q == [q[0]] + q[1..];
    }
  }

  // A walk from a next instruction of i can be led there from i over intrinsics.
  lemma WalkToNext(f: Function, i: Loc, rest: seq<Loc>) returns (p: seq<Loc>)
    requires f.WellFormed() && f.Has(i) && !f.At(i).Intrinsic? && IsWalk(f, rest) && rest != []
    requires rest[0] in NextInsts(f, i) && f.Has(rest[0]) && !f.At(rest[0]).Intrinsic?
    ensures IsWalk(f, p) && p != [] && p[0] == i && p[|p| - 1] == rest[|rest| - 1]
    ensures Erase(f, p) == [i] + Erase(f, rest)
  {
    var k :| 0 <= k < |NextInsts(f, i)| && NextInsts(f, i)[k] == rest[0];
    var j := f.Next(i)[k];
    NextIsThere(f, i);
    var skipped := SkipPath(f, j);
    SkipPathLeads(f, j);
    JoinWalks(f, skipped, rest);
    OneStepMore(f, i, skipped[..|skipped| - 1] + rest);
    p := [i] + (skipped[..|skipped| - 1] + rest);
  }
}
