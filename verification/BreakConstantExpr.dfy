/** The pass that turns constant expressions with a GEP, unary or binary operator into
    instructions. */
module BreakConstantExpr {
  import opened ConstantExprIR
  import opened Wrappers

  // ----- which operands are broken -----

  predicate HasConstantGEP(e: Expr) {
    e.CE? && (e.op.GetElementPtr? || exists k | 0 <= k < |e.args| :: HasConstantGEP(e.args[k]))
  }

  predicate HasConstantBinaryOrUnaryOp(e: Expr) {
    e.CE? && (e.op.BinaryOp? || e.op.UnaryOp? || exists k | 0 <= k < |e.args| :: HasConstantBinaryOrUnaryOp(e.args[k]))
  }

  predicate HasConstantExpr(o: Operand) {
    o.Const? && (HasConstantGEP(o.e) || HasConstantBinaryOrUnaryOp(o.e))
  }

  predicate Broken(inst: Inst) {
    forall k | 0 <= k < |inst.operands| :: !HasConstantExpr(inst.operands[k])
  }

  // ----- one conversion -----

  function NewInst(ce: Expr): Inst
    requires ce.CE?
  {
    Op(Pure(ce.op), seq(|ce.args|, k requires 0 <= k < |ce.args| => Const(ce.args[k])))
  }

  function ReplaceUses(os: seq<Operand>, from: Operand, to: Operand): seq<Operand> {
    seq(|os|, k requires 0 <= k < |os| => if os[k] == from then to else os[k])
  }

  function SetIncoming(phi: Inst, index: nat, to: Operand): Inst
    requires phi.Phi? && index < |phi.operands| == |phi.blocks|
  {
    phi.(operands := seq(|phi.operands|, k requires 0 <= k < |phi.operands| =>
      if index <= k && phi.blocks[k] == phi.blocks[index] then to else phi.operands[k]))
  }

  function IndexOf(ids: seq<RegId>, i: RegId): (k: nat)
    requires i in ids
    ensures k < |ids| && ids[k] == i
  {
    if ids[0] == i then 0 else 1 + IndexOf(ids[1..], i)
  }

  function InsertAt(ids: seq<RegId>, k: nat, n: RegId): seq<RegId>
    requires k <= |ids|
  {
    ids[..k] + [n] + ids[k..]
  }

  // Add the instruction for ce at position k of block b and make `user` refer to it.
  function Convert(f: Func, ce: Expr, b: BlockId, k: nat, i: RegId, user: Inst): Func
    requires ce.CE? && b in f.body && k <= |f.body[b]|
  {
    f.(code := f.code[i := user][f.unused := NewInst(ce)],
       parent := f.parent[f.unused := b],
       body := f.body[b := InsertAt(f.body[b], k, f.unused)],
       unused := f.unused + 1)
  }

  // f' is f with ce computed into the register f.unused before position k of block b. An
  // operand ce may have become that register in the instruction at that position, or in a
  // phi where control comes from b.
  ghost predicate IsConversion(f: Func, f': Func, ce: Expr, b: BlockId, k: nat) {
    && ce.CE? && b in f.body && k < |f.body[b]|
    && f'.body == f.body[b := InsertAt(f.body[b], k, f.unused)] && f'.phis == f.phis
    && f'.code.Keys == f.code.Keys + {f.unused} && f'.code[f.unused] == NewInst(ce)
    && forall i | i in f.code :: Uses(f.code[i], f'.code[i], i == f.body[b][k], b, Const(ce), Reg(f.unused))
  }

  ghost predicate Uses(inst: Inst, inst': Inst, here: bool, b: BlockId, from: Operand, to: Operand) {
    && |inst.operands| == |inst'.operands|
    && (if inst.Phi? then
          && inst'.Phi? && inst'.blocks == inst.blocks
          && (forall k | 0 <= k < |inst.operands| ::
                inst'.operands[k] == inst.operands[k] ||
                (inst.operands[k] == from && inst'.operands[k] == to && k < |inst.blocks| && inst.blocks[k] == b))
        else
          && inst'.Op? && inst'.opcode == inst.opcode
          && (forall k | 0 <= k < |inst.operands| ::
                inst'.operands[k] == inst.operands[k] ||
                (inst.operands[k] == from && inst'.operands[k] == to && here)))
  }

  // ----- a conversion preserves every run -----

  ghost predicate Agree<V(!new), M>(n: RegId, st: State<V, M>, st': State<V, M>) {
    st.mem == st'.mem && forall r: RegId | r != n :: st.regs(r) == st'.regs(r)
  }

  // The runs are at the same point with the same values in the original registers; where
  // control came from b, the new register holds its expression's value.
  ghost predicate Similar<V(!new), M>(n: RegId, v: V, b: BlockId, c: Config<V, M>, c': Config<V, M>) {
    && Agree(n, c.st, c'.st)
    && (c.Running? <==> c'.Running?)
    && (c.Running? ==> c.block == c'.block && c.pred == c'.pred && (c.pred == Some(b) ==> c'.st.regs(n) == v))
  }

  lemma NewInstValue<V, M>(m: Machine<V, M>, regs: RegId -> V, ce: Expr)
    requires ce.CE?
    ensures m.fold(ce.op, EvalAll(m, regs, NewInst(ce).operands)) == EvalExpr(m, ce)
  {
    EvalConsts(m, regs, ce.args);
    assert NewInst(ce).operands == seq(|ce.args|, k requires 0 <= k < |ce.args| => Const(ce.args[k]));
  }

  lemma {:induction false} EvalConsts<V, M>(m: Machine<V, M>, regs: RegId -> V, es: seq<Expr>)
    ensures EvalAll(m, regs, seq(|es|, k requires 0 <= k < |es| => Const(es[k]))) == EvalExprs(m, es)
  {
    if es != [] {
      EvalConsts(m, regs, es[1..]);
      var all := seq(|es|, k requires 0 <= k < |es| => Const(es[k]));
      var rest := seq(|es[1..]|, k requires 0 <= k < |es[1..]| => Const(es[1..][k]));
      assert EvalAll(m, regs, all) == [EvalExpr(m, es[0])] + EvalAll(m, regs, rest);
    }
  }

  // Corresponding instructions see the same operand values.
  lemma SameValues<V(!new), M>(m: Machine<V, M>, n: RegId, ce: Expr, b: BlockId, inst: Inst, inst': Inst, here: bool,
                               st: State<V, M>, st': State<V, M>)
    requires Agree(n, st, st') && OperandsBelow(inst, n) && inst.Op?
    requires Uses(inst, inst', here, b, Const(ce), Reg(n)) && (here ==> st'.regs(n) == EvalExpr(m, ce))
    ensures EvalAll(m, st.regs, inst.operands) == EvalAll(m, st'.regs, inst'.operands)
  {
    forall k | 0 <= k < |inst.operands|
      ensures Eval(m, st.regs, inst.operands[k]) == Eval(m, st'.regs, inst'.operands[k]) {
    }
  }

  // What a conversion at instruction `at` leaves of the instructions `ids`.
  ghost predicate Correspond(code: map<RegId, Inst>, code': map<RegId, Inst>, ids: seq<RegId>, at: RegId, n: RegId,
                             ce: Expr, b: BlockId) {
    forall i {:trigger i in ids} | i in ids ::
      && i != n && i in code && i in code' && code[i].Op? && OperandsBelow(code[i], n)
      && Uses(code[i], code'[i], i == at, b, Const(ce), Reg(n))
  }

  lemma BodyCorresponds(f: Func, f': Func, ce: Expr, b: BlockId, k: nat, q: BlockId)
    requires f.WellFormed() && IsConversion(f, f', ce, b, k) && q in f.body
    ensures Correspond(f.code, f'.code, f.body[q], f.body[b][k], f.unused, ce, b)
    ensures q != b ==> f.body[b][k] !in f.body[q]
    ensures f.body[b][k] !in f.body[b][..k] && f.body[q] != []
  {
    assert f.BlockOk(b) && f.BlockOk(q) && f.body[b][k] in f.body[b];
    assert forall i {:trigger i in f.body[q]} | i in f.body[q] :: f.IsPlaced(i) && f.OperandsOk(i);
  }

  lemma {:induction false} ExecuteAllSimilar<V(!new), M>(
    m: Machine<V, M>, code: map<RegId, Inst>, code': map<RegId, Inst>, ids: seq<RegId>, at: RegId, n: RegId,
    ce: Expr, b: BlockId,
    st: State<V, M>, st': State<V, M>)
    requires Correspond(code, code', ids, at, n, ce, b)
    requires Agree(n, st, st') && (at in ids ==> st'.regs(n) == EvalExpr(m, ce))
    ensures Agree(n, ExecuteAll(m, code, ids, st), ExecuteAll(m, code', ids, st'))
    ensures ExecuteAll(m, code', ids, st').regs(n) == st'.regs(n)
  {
    if ids != [] {
      var i := ids[0];
      assert i in ids && forall j | j in ids[1..] :: j in ids;
      SameValues(m, n, ce, b, code[i], code'[i], i == at, st, st');
      ExecuteAllSimilar(m, code, code', ids[1..], at, n, ce, b, Execute(m, code[i], i, st), Execute(m, code'[i], i,
                        st'));
    }
  }

  lemma {:induction false} ExecuteAllAppend<V, M>(m: Machine<V, M>, code: map<RegId, Inst>, xs: seq<RegId>,
                                                  ys: seq<RegId>, st: State<V, M>)
    ensures ExecuteAll(m, code, xs + ys, st) == ExecuteAll(m, code, ys, ExecuteAll(m, code, xs, st))
  {
    if xs == [] {
      assert xs + ys == ys;
    } else {
      assert (xs + ys)[1..] == xs[1..] + ys;
      ExecuteAllAppend(m, code, xs[1..], ys, if xs[0] in code then Execute(m, code[xs[0]], xs[0], st) else st);
    }
  }

  lemma {:induction false} SameIncoming(phi: Inst, phi': Inst, b: BlockId, p: BlockId, from: Operand, to: Operand,
                                        k: nat)
    requires phi.Phi? && Uses(phi, phi', false, b, from, to)
    ensures Incoming(phi, p, k).Some? <==> Incoming(phi', p, k).Some?
    ensures Incoming(phi, p, k).Some? ==>
              || Incoming(phi', p, k) == Incoming(phi, p, k)
              || (Incoming(phi, p, k) == Some(from) && Incoming(phi', p, k) == Some(to) && p == b)
    ensures Incoming(phi, p, k).Some? ==>
              exists j :: 0 <= j < |phi.operands| && Incoming(phi, p, k).value == phi.operands[j]
    decreases |phi.blocks| - k
  {
    if k < |phi.blocks| && k < |phi.operands| && phi.blocks[k] != p {
      SameIncoming(phi, phi', b, p, from, to, k + 1);
    }
  }

  lemma PhiValueSimilar<V(!new), M>(m: Machine<V, M>, n: RegId, ce: Expr, b: BlockId, phi: Inst, phi': Inst,
                                    p: BlockId, st: State<V, M>, st': State<V, M>, was: V)
    requires phi.Phi? && Uses(phi, phi', false, b, Const(ce), Reg(n)) && OperandsBelow(phi, n)
    requires Agree(n, st, st') && (p == b ==> st'.regs(n) == EvalExpr(m, ce))
    ensures PhiValue(m, phi, Some(p), st.regs, was) == PhiValue(m, phi', Some(p), st'.regs, was)
  {
    SameIncoming(phi, phi', b, p, Const(ce), Reg(n), 0);
  }

  lemma EnterBlockSimilar<V(!new), M>(m: Machine<V, M>, f: Func, f': Func, ce: Expr, b: BlockId, k: nat,
                                      c: Config<V, M>, c': Config<V, M>)
    requires f.WellFormed() && IsConversion(f, f', ce, b, k) && c.Running?
    requires Similar(f.unused, EvalExpr(m, ce), b, c, c')
    ensures Agree(f.unused, EnterBlock(m, f, c.block, c.pred, c.st), EnterBlock(m, f', c.block, c.pred, c'.st))
  {
    forall r: RegId | r != f.unused
      ensures EnterBlock(m, f, c.block, c.pred, c.st).regs(r) == EnterBlock(m, f', c.block, c.pred, c'.st).regs(r)
    {
      if r in f.code {
        assert f.OperandsOk(r);
        assert Uses(f.code[r], f'.code[r], r == f.body[b][k], b, Const(ce), Reg(f.unused));
        if f.code[r].Phi? && c.pred.Some? {
          PhiValueSimilar(m, f.unused, ce, b, f.code[r], f'.code[r], c.pred.value, c.st, c'.st, c.st.regs(r));
        }
      }
    }
  }

  // Executing the instructions before the terminator `ids[last]`, with the new instruction
  // n inserted at k, computes the expression into n and changes nothing else.
  lemma ConvertedBlock<V(!new), M>(
    m: Machine<V, M>, code: map<RegId, Inst>, code': map<RegId, Inst>, ids: seq<RegId>, k: nat, n: RegId, ce: Expr,
    b: BlockId,
    st: State<V, M>, st': State<V, M>)
    requires k < |ids| && ids[k] !in ids[..k] && Correspond(code, code', ids, ids[k], n, ce, b)
    requires ce.CE? && n in code' && code'[n] == NewInst(ce) && Agree(n, st, st')
    ensures var t, t' := ExecuteAll(m, code, ids[..|ids| - 1], st),
                        ExecuteAll(m, code', InsertAt(ids, k, n)[..|ids|], st');
            Agree(n, t, t') && t'.regs(n) == EvalExpr(m, ce)
  {
    var pre, rest := ids[..k], ids[k..|ids| - 1];
    assert ids[..|ids| - 1] == pre + rest;
    assert InsertAt(ids, k, n)[..|ids|] == pre + ([n] + rest);
    assert forall i | i in pre || i in rest :: i in ids;
    ExecuteAllAppend(m, code, pre, rest, st);
    ExecuteAllAppend(m, code', pre, [n] + rest, st');
    ExecuteAllSimilar(m, code, code', pre, ids[k], n, ce, b, st, st');
    var mid, mid' := ExecuteAll(m, code, pre, st), ExecuteAll(m, code', pre, st');
    var next := Execute(m, code'[n], n, mid');
    NewInstValue(m, mid'.regs, ce);
    assert ([n] + rest)[1..] == rest;
    assert ExecuteAll(m, code', [n] + rest, mid') == ExecuteAll(m, code', rest, next);
    ExecuteAllSimilar(m, code, code', rest, ids[k], n, ce, b, mid, next);
  }

  // Up to the terminator, the converted block and every other block run alike.
  lemma BlockSimilar<V(!new), M>(m: Machine<V, M>, f: Func, f': Func, ce: Expr, b: BlockId, k: nat, q: BlockId,
                                 st: State<V, M>, st': State<V, M>)
    requires IsConversion(f, f', ce, b, k) && Agree(f.unused, st, st') && f.HasBlock(q) && f'.HasBlock(q)
    requires Correspond(f.code, f'.code, f.body[q], f.body[b][k], f.unused, ce, b)
    requires if q == b then f.body[b][k] !in f.body[b][..k] else f.body[b][k] !in f.body[q]
    ensures var t, t' := ExecuteAll(m, f.code, f.Split(q).0, st), ExecuteAll(m, f'.code, f'.Split(q).0, st');
            Agree(f.unused, t, t') && (q == b ==> t'.regs(f.unused) == EvalExpr(m, ce))
  {
    if q == b {
      ThisBlockSimilar(m, f, f', ce, b, k, st, st');
    } else {
      OtherBlockSimilar(m, f, f', ce, b, k, q, st, st');
    }
  }

  lemma ThisBlockSimilar<V(!new), M>(m: Machine<V, M>, f: Func, f': Func, ce: Expr, b: BlockId, k: nat,
                                     st: State<V, M>, st': State<V, M>)
    requires IsConversion(f, f', ce, b, k) && Agree(f.unused, st, st') && f.HasBlock(b) && f'.HasBlock(b)
    requires Correspond(f.code, f'.code, f.body[b], f.body[b][k], f.unused, ce, b) && f.body[b][k] !in f.body[b][..k]
    ensures var t, t' := ExecuteAll(m, f.code, f.Split(b).0, st), ExecuteAll(m, f'.code, f'.Split(b).0, st');
            Agree(f.unused, t, t') && t'.regs(f.unused) == EvalExpr(m, ce)
  {
    var ids := f.body[b];
    assert f'.Split(b).0 == InsertAt(ids, k, f.unused)[..|ids|];
    ConvertedBlock(m, f.code, f'.code, ids, k, f.unused, ce, b, st, st');
  }

  lemma OtherBlockSimilar<V(!new), M>(m: Machine<V, M>, f: Func, f': Func, ce: Expr, b: BlockId, k: nat, q: BlockId,
                                      st: State<V, M>, st': State<V, M>)
    requires IsConversion(f, f', ce, b, k) && Agree(f.unused, st, st') && f.HasBlock(q) && f'.HasBlock(q) && q != b
    requires Correspond(f.code, f'.code, f.body[q], f.body[b][k], f.unused, ce, b) && f.body[b][k] !in f.body[q]
    ensures Agree(f.unused, ExecuteAll(m, f.code, f.Split(q).0, st), ExecuteAll(m, f'.code, f'.Split(q).0, st'))
  {
    var before := f.Split(q).0;
    forall i | i in before ensures i in f.body[q] {
    }
    ExecuteAllSimilar(m, f.code, f'.code, before, f.body[b][k], f.unused, ce, b, st, st');
  }

  lemma TerminatorSimilar<V(!new), M>(m: Machine<V, M>, n: RegId, ce: Expr, b: BlockId, q: BlockId, term: Inst,
                                      term': Inst, i: RegId, here: bool, st: State<V, M>, st': State<V, M>)
    requires term.Op? && i != n && OperandsBelow(term, n) && Uses(term, term', here, b, Const(ce), Reg(n))
    requires Agree(n, st, st') && (q == b ==> st'.regs(n) == EvalExpr(m, ce)) && (here ==> q == b)
    ensures Similar(n, EvalExpr(m, ce), b, RunTerminator(m, term, i, q, st), RunTerminator(m, term', i, q, st'))
  {
    SameValues(m, n, ce, b, term, term', here, st, st');
  }

  lemma SameTerminator(f: Func, f': Func, ce: Expr, b: BlockId, k: nat, q: BlockId)
    requires f.WellFormed() && IsConversion(f, f', ce, b, k) && q in f.body
    ensures f.HasBlock(q) && f'.HasBlock(q) && f'.Split(q).1 == f.Split(q).1
    ensures var last := f.Split(q).1;
            && f.code[last].Op? && last != f.unused && OperandsBelow(f.code[last], f.unused)
            && Uses(f.code[last], f'.code[last], last == f.body[b][k], b, Const(ce), Reg(f.unused))
            && (last == f.body[b][k] ==> q == b)
  {
    BodyCorresponds(f, f', ce, b, k, q);
    var ids := f.body[q];
    assert ids[|ids| - 1] in ids && f.BlockOk(q);
  }

  lemma RunBlockSimilar<V(!new), M>(m: Machine<V, M>, f: Func, f': Func, ce: Expr, b: BlockId, k: nat,
                                    c: Config<V, M>, c': Config<V, M>)
    requires f.WellFormed() && IsConversion(f, f', ce, b, k)
    requires Similar(f.unused, EvalExpr(m, ce), b, c, c')
    ensures Similar(f.unused, EvalExpr(m, ce), b, RunBlock(m, f, c), RunBlock(m, f', c'))
  {
    if c.Running? && c.block in f.body {
      var q := c.block;
      var st, st' := EnterBlock(m, f, q, c.pred, c.st), EnterBlock(m, f', q, c.pred, c'.st);
      EnterBlockSimilar(m, f, f', ce, b, k, c, c');
      SameTerminator(f, f', ce, b, k, q);
      BodyCorresponds(f, f', ce, b, k, q);
      BlockSimilar(m, f, f', ce, b, k, q, st, st');
      var last := f.Split(q).1;
      TerminatorSimilar(m, f.unused, ce, b, q, f.code[last], f'.code[last], last, last == f.body[b][k],
                        ExecuteAll(m, f.code, f.Split(q).0, st), ExecuteAll(m, f'.code, f'.Split(q).0, st'));
    }
  }

  lemma {:induction false} RunSimilar<V(!new), M>(m: Machine<V, M>, f: Func, f': Func, ce: Expr, b: BlockId, k: nat,
                                                  c: Config<V, M>, c': Config<V, M>, n: nat)
    requires f.WellFormed() && IsConversion(f, f', ce, b, k)
    requires Similar(f.unused, EvalExpr(m, ce), b, c, c')
    ensures Similar(f.unused, EvalExpr(m, ce), b, Run(m, f, c, n), Run(m, f', c', n))
  {
    if n > 0 {
      RunSimilar(m, f, f', ce, b, k, c, c', n - 1);
      RunBlockSimilar(m, f, f', ce, b, k, Run(m, f, c, n - 1), Run(m, f', c', n - 1));
    }
  }

  // ----- any number of conversions -----

  ghost predicate IsChain(fs: seq<Func>) {
    && fs != [] && (forall j {:trigger fs[j]} | 0 <= j < |fs| :: fs[j].WellFormed() && fs[0].unused <= fs[j].unused)
    && forall j {:trigger Converts(fs[j], fs[j + 1])} | 0 <= j < |fs| - 1 :: Converts(fs[j], fs[j + 1])
  }

  lemma ChainExtends(fs: seq<Func>, f: Func)
    requires IsChain(fs) && f.WellFormed() && fs[|fs| - 1].unused <= f.unused && Converts(fs[|fs| - 1], f)
    ensures IsChain(fs + [f])
  {
    var fs' := fs + [f];
    forall j | 0 <= j < |fs'| - 1 ensures Converts(fs'[j], fs'[j + 1]) {
      if j < |fs| - 1 { assert Converts(fs[j], fs[j + 1]); }
    }
  }

  ghost predicate Converts(f: Func, f': Func) {
    exists ce, b, k :: IsConversion(f, f', ce, b, k)
  }

  // The runs are at the same point with the same memory and original registers.
  ghost predicate SameRun<V(!new), M>(n: RegId, c: Config<V, M>, c': Config<V, M>) {
    && (c.Running? <==> c'.Running?) && (c.Running? ==> c.block == c'.block && c.pred == c'.pred)
    && c.st.mem == c'.st.mem && forall r: RegId | r < n :: c.st.regs(r) == c'.st.regs(r)
  }

  lemma {:induction false} ChainPreservesRuns<V(!new), M>(m: Machine<V, M>, fs: seq<Func>, c: Config<V, M>, n: nat)
    requires IsChain(fs) && (c.Running? ==> c.pred == None)
    ensures SameRun(fs[0].unused, Run(m, fs[0], c, n), Run(m, fs[|fs| - 1], c, n))
  {
    if |fs| > 1 {
      var init := fs[..|fs| - 1];
      var j := |fs| - 2;
      assert Converts(fs[j], fs[j + 1]);
      forall i | 0 <= i < |init| - 1 ensures Converts(init[i], init[i + 1]) {
        assert Converts(fs[i], fs[i + 1]);
      }
      ChainPreservesRuns(m, init, c, n);
      var f, f' := fs[|fs| - 2], fs[|fs| - 1];
      var ce, b, k :| IsConversion(f, f', ce, b, k);
      RunSimilar(m, f, f', ce, b, k, c, c, n);
    }
  }

  ghost predicate Rewrites(f: Func, f': Func) {
    exists fs :: IsChain(fs) && fs[0] == f && fs[|fs| - 1] == f'
  }

  // The pass preserves meaning: on every machine, from every initial state, after any number
  // of blocks, the rewritten function is where the original is, with the same memory and the
  // same value in every original register.
  lemma RewritingPreservesRuns<V(!new), M>(m: Machine<V, M>, f: Func, f': Func, c: Config<V, M>, n: nat)
    requires Rewrites(f, f') && (c.Running? ==> c.pred == None)
    ensures SameRun(f.unused, Run(m, f, c, n), Run(m, f', c, n))
  {
    var fs :| IsChain(fs) && fs[0] == f && fs[|fs| - 1] == f';
    ChainPreservesRuns(m, fs, c, n);
  }

  // ----- conversions keep functions well formed -----

  lemma ConvertIsConversion(f: Func, ce: Expr, b: BlockId, k: nat, i: RegId, user: Inst)
    requires f.WellFormed() && ce.CE? && b in f.body && k < |f.body[b]| && i in f.code
    requires Uses(f.code[i], user, i == f.body[b][k], b, Const(ce), Reg(f.unused)) && (user.Phi? ==> f.PhiOk(user))
    ensures IsConversion(f, Convert(f, ce, b, k, i, user), ce, b, k)
  {
    var f' := Convert(f, ce, b, k, i, user);
    forall j | j in f.code ensures Uses(f.code[j], f'.code[j], j == f.body[b][k], b, Const(ce), Reg(f.unused)) {
      assert f.IsPlaced(j);
    }
  }

  lemma InsertKeepsDistinct(ids: seq<RegId>, k: nat, n: RegId)
    requires Distinct(ids) && n !in ids && k <= |ids|
    ensures Distinct(InsertAt(ids, k, n)) && forall i :: i in InsertAt(ids, k, n) <==> i == n || i in ids
  {
    assert ids == ids[..k] + ids[k..];
  }

  lemma ConvertKeepsBlocks(f: Func, ce: Expr, b: BlockId, k: nat, i: RegId, user: Inst, q: BlockId)
    requires f.WellFormed() && ce.CE? && b in f.body && k < |f.body[b]| && i in f.code
    requires user.Phi? <==> f.code[i].Phi?
    requires q in f.body
    ensures Convert(f, ce, b, k, i, user).BlockOk(q)
  {
    assert f.BlockOk(q);
    forall j | j in f.body[q] || j in f.phis[q] ensures j != f.unused {
      assert f.IsPlaced(j);
    }
    if q == b {
      InsertKeepsDistinct(f.body[b], k, f.unused);
    }
  }

  lemma ConvertKeepsPlaces(f: Func, ce: Expr, b: BlockId, k: nat, i: RegId, user: Inst, j: RegId)
    requires f.WellFormed() && ce.CE? && b in f.body && k < |f.body[b]| && i in f.code
    requires user.Phi? <==> f.code[i].Phi?
    requires j in f.code || j == f.unused
    ensures Convert(f, ce, b, k, i, user).IsPlaced(j)
  {
    assert f.BlockOk(b) && f.IsPlaced(i);
    if j in f.code { assert f.IsPlaced(j); }
    forall x | x in f.body[b] ensures x != f.unused {
      assert f.IsPlaced(x);
    }
    InsertKeepsDistinct(f.body[b], k, f.unused);
  }

  lemma ConvertKeepsWellFormed(f: Func, ce: Expr, b: BlockId, k: nat, i: RegId, user: Inst)
    requires f.WellFormed() && ce.CE? && b in f.body && k < |f.body[b]| && i in f.code
    requires Uses(f.code[i], user, i == f.body[b][k], b, Const(ce), Reg(f.unused)) && (user.Phi? ==> f.PhiOk(user))
    ensures Convert(f, ce, b, k, i, user).WellFormed()
  {
    var f', n := Convert(f, ce, b, k, i, user), f.unused;
    forall q | q in f'.body ensures f'.BlockOk(q) {
      ConvertKeepsBlocks(f, ce, b, k, i, user, q);
    }
    forall j | j in f'.code ensures f'.IsPlaced(j) {
      ConvertKeepsPlaces(f, ce, b, k, i, user, j);
    }
    forall j | j in f'.code ensures f'.OperandsOk(j) {
      ConvertKeepsOperands(f, ce, b, k, i, user, j);
    }
  }

  lemma ConvertKeepsOperands(f: Func, ce: Expr, b: BlockId, k: nat, i: RegId, user: Inst, j: RegId)
    requires f.WellFormed() && ce.CE? && b in f.body && k < |f.body[b]| && i in f.code
    requires Uses(f.code[i], user, i == f.body[b][k], b, Const(ce), Reg(f.unused)) && (user.Phi? ==> f.PhiOk(user))
    requires j in f.code || j == f.unused
    ensures Convert(f, ce, b, k, i, user).OperandsOk(j)
  {
    assert f.OperandsOk(i);
    if j in f.code { assert f.OperandsOk(j); }
  }

  // ----- the worklist measure -----

  function ExprSize(e: Expr): nat {
    match e
    case Leaf(_) => 0
    case CE(_, args) => 1 + ExprsSize(args)
  }

  function ExprsSize(es: seq<Expr>): nat {
    if es == [] then 0 else ExprSize(es[0]) + ExprsSize(es[1..])
  }

  function OperandSize(o: Operand): nat {
    if o.Const? then ExprSize(o.e) else 0
  }

  function OperandsSize(os: seq<Operand>): nat {
    if os == [] then 0 else OperandSize(os[0]) + OperandsSize(os[1..])
  }

  function Weight(code: map<RegId, Inst>, i: RegId): nat {
    if i in code then OperandsSize(code[i].operands) else 0
  }

  // The total size of the constant expressions still in instructions on the worklist.
  function WorkSize(code: map<RegId, Inst>, worklist: seq<RegId>): nat {
    if worklist == [] then 0 else Weight(code, worklist[0]) + WorkSize(code, worklist[1..])
  }

  lemma {:induction false} NewInstSize(args: seq<Expr>)
    ensures OperandsSize(seq(|args|, k requires 0 <= k < |args| => Const(args[k]))) == ExprsSize(args)
  {
    if args != [] {
      NewInstSize(args[1..]);
      var all := seq(|args|, k requires 0 <= k < |args| => Const(args[k]));
      assert all[1..] == seq(|args[1..]|, k requires 0 <= k < |args[1..]| => Const(args[1..][k]));
    }
  }

  // Replacing constant operands by registers shrinks the total by at least one of them.
  lemma {:induction false} ReplacingShrinks(os: seq<Operand>, os': seq<Operand>, k: int)
    requires |os| == |os'|
    requires forall j | 0 <= j < |os| :: os'[j] == os[j] || os'[j].Reg?
    requires 0 <= k < |os| ==> os'[k].Reg?
    ensures OperandsSize(os') + (if 0 <= k < |os| then OperandSize(os[k]) else 0) <= OperandsSize(os)
  {
    if os != [] {
      ReplacingShrinks(os[1..], os'[1..], k - 1);
    }
  }

  lemma {:induction false} WorkSizeMonotone(code: map<RegId, Inst>, code': map<RegId, Inst>, worklist: seq<RegId>)
    requires forall i | i in worklist :: Weight(code', i) <= Weight(code, i)
    ensures WorkSize(code', worklist) <= WorkSize(code, worklist)
  {
    if worklist != [] {
      assert forall i | i in worklist[1..] :: i in worklist;
      WorkSizeMonotone(code, code', worklist[1..]);
    }
  }

  lemma {:induction false} WorkSizePush(code: map<RegId, Inst>, worklist: seq<RegId>, i: RegId)
    ensures WorkSize(code, worklist + [i]) == WorkSize(code, worklist) + Weight(code, i)
  {
    if worklist != [] {
      WorkSizePush(code, worklist[1..], i);
      assert (worklist + [i])[1..] == worklist[1..] + [i];
    } else {
      assert worklist + [i] == [i];
    }
  }

  // ----- the pass -----

  class BreakConstantGEPs {
    var f: Func
    ghost var history: seq<Func>   // the function after each conversion so far

    constructor (f: Func)
      requires f.WellFormed()
      ensures this.f == f && history == [f] && Valid()
    {
      this.f, history := f, [f];
    }

    ghost predicate Valid()
      reads this
    {
      IsChain(history) && history[|history| - 1] == f && f.WellFormed()
    }

    // Every instruction with an expression still to be broken is on the worklist.
    ghost predicate Pending(worklist: seq<RegId>)
      reads this
    {
      && (forall i | i in worklist :: i in f.code)
      && (forall i | i in f.code && !Broken(f.code[i]) :: i in worklist)
    }

    // Every instruction but i with an expression still to be broken is on the worklist.
    ghost predicate PendingBut(worklist: seq<RegId>, i: RegId)
      reads this
    {
      && (forall j | j in worklist :: j in f.code)
      && (forall j | j in f.code && j != i && !Broken(f.code[j]) :: j in worklist)
    }

    // Convert ce and put the new instruction on the worklist.
    method ConvertExpression(ce: Expr, b: BlockId, k: nat, i: RegId, ghost index: nat, user: Inst, worklist: seq<RegId>)
      returns (worklist': seq<RegId>)
      requires Valid() && ce.CE? && b in f.body && k < |f.body[b]| && i in f.code && PendingBut(worklist, i)
      requires Uses(f.code[i], user, i == f.body[b][k], b, Const(ce), Reg(f.unused)) && (user.Phi? ==> f.PhiOk(user))
      requires index < |user.operands| && f.code[i].operands[index] == Const(ce) &&
               user.operands[index] == Reg(f.unused)
      modifies this
      ensures Valid() && PendingBut(worklist', i) && old(history) <= history
      ensures i in f.code && f.code[i] == user && |worklist'| == |worklist| + 1
      ensures WorkSize(f.code, worklist') + Weight(f.code, i) < old(WorkSize(f.code, worklist) + Weight(f.code, i))
    {
      var n := f.unused;
      var f' := Convert(f, ce, b, k, i, user);
      assert f.IsPlaced(i) && (n in f.code ==> f.IsPlaced(n));
      ConvertIsConversion(f, ce, b, k, i, user);
      ConvertKeepsWellFormed(f, ce, b, k, i, user);
      ChainExtends(history, f');
      ConversionShrinksWork(f.code, f'.code, worklist, i, n, ce, index);
      history := history + [f'];
      f := f';
      worklist' := worklist + [n];
    }

    // Break the operands of a phi: each new instruction goes before the terminator of the
    // incoming block, and every later occurrence of that block shares it.
    method BreakPhi(i: RegId, worklist: seq<RegId>) returns (worklist': seq<RegId>)
      requires Valid() && i in f.code && f.code[i].Phi? && PendingBut(worklist, i)
      modifies this
      ensures Valid() && Pending(worklist') && old(history) <= history
      ensures |worklist| <= |worklist'|
      ensures WorkSize(f.code, worklist') + |worklist'| - |worklist| <=
              old(WorkSize(f.code, worklist) + Weight(f.code, i))
    {
      worklist' := worklist;
      var n := |f.code[i].operands|;
      for index := 0 to n
        invariant Valid() && i in f.code && f.code[i].Phi? && |f.code[i].operands| == n
        invariant PendingBut(worklist', i) && old(history) <= history && |worklist| <= |worklist'|
        invariant forall j | 0 <= j < index :: !HasConstantExpr(f.code[i].operands[j])
        invariant WorkSize(f.code, worklist') + Weight(f.code, i) + |worklist'| - |worklist| <=
                  old(WorkSize(f.code, worklist) + Weight(f.code, i))
      {
        if HasConstantExpr(f.code[i].operands[index]) {
          worklist' := BreakIncoming(i, index, worklist');
        }
      }
    }

    method BreakIncoming(i: RegId, index: nat, worklist: seq<RegId>) returns (worklist': seq<RegId>)
      requires Valid() && i in f.code && f.code[i].Phi? && PendingBut(worklist, i)
      requires index < |f.code[i].operands| && HasConstantExpr(f.code[i].operands[index])
      requires forall j | 0 <= j < index :: !HasConstantExpr(f.code[i].operands[j])
      modifies this
      ensures Valid() && PendingBut(worklist', i) && old(history) <= history && |worklist| <= |worklist'|
      ensures i in f.code && f.code[i].Phi? && |f.code[i].operands| == old(|f.code[i].operands|)
      ensures forall j | 0 <= j <= index :: !HasConstantExpr(f.code[i].operands[j])
      ensures WorkSize(f.code, worklist') + Weight(f.code, i) + |worklist'| - |worklist| <=
              old(WorkSize(f.code, worklist) + Weight(f.code, i))
    {
      var phi := f.code[i];
      assert f.OperandsOk(i);
      var b := phi.blocks[index];
      assert f.BlockOk(b);
      var user := SetIncoming(phi, index, Reg(f.unused));
      PhiUserOk(f, i, index);
      worklist' := ConvertExpression(phi.operands[index].e, b, |f.body[b]| - 1, i, index, user, worklist);
    }

    // Break the operands of any other instruction, just before it.
    method BreakOperands(i: RegId, worklist: seq<RegId>) returns (worklist': seq<RegId>)
      requires Valid() && i in f.code && f.code[i].Op? && PendingBut(worklist, i)
      modifies this
      ensures Valid() && Pending(worklist') && old(history) <= history
      ensures |worklist| <= |worklist'|
      ensures WorkSize(f.code, worklist') + |worklist'| - |worklist| <=
              old(WorkSize(f.code, worklist) + Weight(f.code, i))
    {
      worklist' := worklist;
      var n := |f.code[i].operands|;
      for index := 0 to n
        invariant Valid() && i in f.code && f.code[i].Op? && |f.code[i].operands| == n
        invariant PendingBut(worklist', i) && old(history) <= history && |worklist| <= |worklist'|
        invariant forall j | 0 <= j < index :: !HasConstantExpr(f.code[i].operands[j])
        invariant WorkSize(f.code, worklist') + Weight(f.code, i) + |worklist'| - |worklist| <=
                  old(WorkSize(f.code, worklist) + Weight(f.code, i))
      {
        var inst := f.code[i];
        if HasConstantExpr(inst.operands[index]) {
          assert f.IsPlaced(i);
          var b := f.parent[i];
          var user := Op(inst.opcode, ReplaceUses(inst.operands, inst.operands[index], Reg(f.unused)));
          assert forall j | 0 <= j <= index :: !HasConstantExpr(user.operands[j]);
          worklist' := ConvertExpression(inst.operands[index].e, b, IndexOf(f.body[b], i), i, index, user, worklist');
        }
      }
    }

    // Collect the instructions with an operand to break, once per such operand.
    method CollectWorklist() returns (worklist: seq<RegId>)
      requires Valid()
      ensures Pending(worklist) && forall i | i in worklist :: !Broken(f.code[i])
    {
      worklist := [];
      var blocks := f.body.Keys;
      assert forall i | i in f.code :: f.IsPlaced(i);
      while blocks != {}
        invariant blocks <= f.body.Keys
        invariant forall i | i in worklist :: i in f.code && !Broken(f.code[i])
        invariant forall i | i in f.code && !Broken(f.code[i]) ::
                    i in f.parent && (f.parent[i] in blocks || i in worklist)
      {
        var b :| b in blocks;
        assert f.BlockOk(b);
        var before := worklist;
        worklist := CollectBlock(f.phis[b] + f.body[b], worklist);
        forall i | i in f.code && !Broken(f.code[i]) && f.parent[i] == b ensures i in worklist {
          assert f.IsPlaced(i);
        }
        blocks := blocks - {b};
      }
    }

    method CollectBlock(ids: seq<RegId>, before: seq<RegId>) returns (worklist: seq<RegId>)
      requires forall i | i in ids :: i in f.code
      requires forall i | i in before :: i in f.code && !Broken(f.code[i])
      ensures before <= worklist && forall i | i in worklist :: i in f.code && !Broken(f.code[i])
      ensures forall i | i in ids && !Broken(f.code[i]) :: i in worklist
    {
      worklist := before;
      for k := 0 to |ids|
        invariant before <= worklist && forall i | i in worklist :: i in f.code && !Broken(f.code[i])
        invariant forall i | i in ids[..k] && !Broken(f.code[i]) :: i in worklist
      {
        var inst := f.code[ids[k]];
        for index := 0 to |inst.operands|
          invariant before <= worklist && forall i | i in worklist :: i in f.code && !Broken(f.code[i])
          invariant forall i | i in ids[..k] && !Broken(f.code[i]) :: i in worklist
          invariant (exists j :: 0 <= j < index && HasConstantExpr(inst.operands[j])) ==> ids[k] in worklist
        {
          if HasConstantExpr(inst.operands[index]) {
            worklist := worklist + [ids[k]];
          }
        }
        assert ids[..k + 1] == ids[..k] + [ids[k]];
      }
    }

    // Rewrite the function until no operand, old or new, has anything left to break.
    method RunOnFunction() returns (modified: bool)
      requires Valid()
      modifies this
      ensures Valid() && old(history) <= history
      ensures forall i | i in f.code :: Broken(f.code[i])
      ensures modified <==> exists i :: i in old(f).code && !Broken(old(f).code[i])
    {
      var worklist := CollectWorklist();
      modified := |worklist| > 0;
      assert modified ==> worklist[0] in f.code && !Broken(f.code[worklist[0]]);
      while |worklist| > 0
        invariant Valid() && Pending(worklist) && old(history) <= history
        decreases WorkSize(f.code, worklist), |worklist|
      {
        var i := worklist[|worklist| - 1];
        var rest := worklist[..|worklist| - 1];
        assert worklist == rest + [i];
        WorkSizePush(f.code, rest, i);
        if f.code[i].Phi? {
          worklist := BreakPhi(i, rest);
        } else {
          worklist := BreakOperands(i, rest);
        }
      }
    }
  }

  lemma ConversionShrinksWork(code: map<RegId, Inst>, code': map<RegId, Inst>, worklist: seq<RegId>, i: RegId,
                              n: RegId, ce: Expr, index: nat)
    requires ce.CE? && i in code && n !in code && (forall j | j in worklist :: j in code) && i in code' && n in code'
    requires code' == code[i := code'[i]][n := NewInst(ce)] && |code'[i].operands| == |code[i].operands|
    requires forall j | 0 <= j < |code[i].operands| ::
               code'[i].operands[j] == code[i].operands[j] || code'[i].operands[j].Reg?
    requires index < |code[i].operands| && code[i].operands[index] == Const(ce) && code'[i].operands[index].Reg?
    ensures WorkSize(code', worklist + [n]) + Weight(code', i) < WorkSize(code, worklist) + Weight(code, i)
  {
    ReplacingShrinks(code[i].operands, code'[i].operands, index);
    WorkSizeMonotone(code, code', worklist);
    WorkSizePush(code', worklist, n);
    NewInstSize(ce.args);
  }

  // At the first occurrence of a block whose value must be broken, setting every later
  // occurrence sets them all.
  lemma PhiUserOk(f: Func, i: RegId, index: nat)
    requires f.WellFormed() && i in f.code && f.code[i].Phi? && index < |f.code[i].operands| == |f.code[i].blocks|
    requires HasConstantExpr(f.code[i].operands[index])
    requires forall j | 0 <= j < index :: !HasConstantExpr(f.code[i].operands[j])
    ensures var phi := f.code[i]; var user := SetIncoming(phi, index, Reg(f.unused));
            && f.PhiOk(user) && Uses(phi, user, false, phi.blocks[index], phi.operands[index], Reg(f.unused))
            && |user.operands| == |phi.operands|
            && forall j | 0 <= j <= index :: !HasConstantExpr(user.operands[j])
  {
    assert f.OperandsOk(i);
  }

  predicate FullyBroken(f: Func) {
    forall i | i in f.code :: Broken(f.code[i])
  }

  // f' means what f means and has nothing left to break.
  ghost predicate Processed(f: Func, f': Func) {
    f'.WellFormed() && Rewrites(f, f') && FullyBroken(f')
  }

  method RunOnFunc(f: Func) returns (f': Func, modified: bool)
    requires f.WellFormed()
    ensures Processed(f, f')
    ensures modified <==> !FullyBroken(f)
  {
    var pass := new BreakConstantGEPs(f);
    modified := pass.RunOnFunction();
    f' := pass.f;
  }

  // The first k functions are rewritten, and modified says whether that changed one.
  ghost predicate AreProcessed(fs: seq<Func>, fs': seq<Func>, modified: bool, k: nat)
    requires k <= |fs| && forall j | 0 <= j < |fs| :: fs[j].WellFormed()
  {
    && AllProcessed(fs, fs', k)
    && (modified <==> SomeToBreak(fs, k))
  }

  ghost predicate AllProcessed(fs: seq<Func>, fs': seq<Func>, k: nat)
    requires k <= |fs| && forall j | 0 <= j < |fs| :: fs[j].WellFormed()
  {
    |fs'| == k && forall j {:trigger fs'[j]} | 0 <= j < k :: Processed(fs[j], fs'[j])
  }

  lemma AllProcessedNext(fs: seq<Func>, fs': seq<Func>, k: nat, f': Func)
    requires k < |fs| && forall j | 0 <= j < |fs| :: fs[j].WellFormed()
    requires AllProcessed(fs, fs', k) && Processed(fs[k], f')
    ensures AllProcessed(fs, fs' + [f'], k + 1)
  {
  }

  ghost predicate SomeToBreak(fs: seq<Func>, k: nat)
    requires k <= |fs| && forall j | 0 <= j < |fs| :: fs[j].WellFormed()
  {
    exists j {:trigger FullyBroken(fs[j])} :: 0 <= j < k && !FullyBroken(fs[j])
  }

  lemma SomeToBreakNext(fs: seq<Func>, k: nat)
    requires k < |fs| && forall j | 0 <= j < |fs| :: fs[j].WellFormed()
    ensures SomeToBreak(fs, k + 1) <==> SomeToBreak(fs, k) || !FullyBroken(fs[k])
  {
  }

  lemma ProcessedNext(fs: seq<Func>, fs': seq<Func>, modified: bool, k: nat, f': Func, changed: bool)
    requires k < |fs| && forall j | 0 <= j < |fs| :: fs[j].WellFormed()
    requires AreProcessed(fs, fs', modified, k) && Processed(fs[k], f') && (changed <==> !FullyBroken(fs[k]))
    ensures AreProcessed(fs, fs' + [f'], modified || changed, k + 1)
  {
    AllProcessedNext(fs, fs', k, f');
    SomeToBreakNext(fs, k);
  }

  // Rewrite every function of a module.
  method RunOnModule(fs: seq<Func>) returns (fs': seq<Func>, modified: bool)
    requires forall k | 0 <= k < |fs| :: fs[k].WellFormed()
    ensures AreProcessed(fs, fs', modified, |fs|)
  {
    fs', modified := [], false;
    for k := 0 to |fs|
      invariant AreProcessed(fs, fs', modified, k)
    {
      var f', changed := RunOnFunc(fs[k]);
      ProcessedNext(fs, fs', modified, k, f', changed);
      fs', modified := fs' + [f'], modified || changed;
    }
  }
}
