/** A small intermediate representation with constant expressions as operands, and its
    meaning: what a run of a function does to its registers and memory. */
module ConstantExprIR {
  import opened Wrappers

  type RegId = nat     // an instruction and the register it defines
  type BlockId = nat

  // Operators that may occur in constant expressions. They are pure and total.
  datatype PureOp = GetElementPtr | BinaryOp(code: nat) | UnaryOp(code: nat) | OtherOp(code: nat)

  datatype Opcode = Pure(op: PureOp) | Effect(code: nat)

  // A constant: a literal, global or aggregate, or a constant expression.
  datatype Expr = Leaf(id: nat) | CE(op: PureOp, args: seq<Expr>)

  datatype Operand = Reg(r: RegId) | Const(e: Expr)

  datatype Inst =
    | Op(opcode: Opcode, operands: seq<Operand>)
    | Phi(operands: seq<Operand>, blocks: seq<BlockId>)

  // A block runs its phis in parallel and then its body; the last instruction of the body
  // is the terminator. Registers from `unused` on are unused.
  datatype Func = Func(
    code: map<RegId, Inst>,
    parent: map<RegId, BlockId>,
    phis: map<BlockId, seq<RegId>>,
    body: map<BlockId, seq<RegId>>,
    unused: RegId)
  {
    ghost predicate WellFormed() {
      && phis.Keys == body.Keys && parent.Keys == code.Keys
      && (forall b {:trigger BlockOk(b)} | b in body :: BlockOk(b))
      && (forall i {:trigger IsPlaced(i)} | i in code :: IsPlaced(i))
      && (forall i {:trigger OperandsOk(i)} | i in code :: OperandsOk(i))
    }

    // A block's body is not empty and lists its own instructions once each.
    ghost predicate BlockOk(b: BlockId)
      requires b in body && b in phis
    {
      && body[b] != [] && Distinct(body[b])
      && (forall i {:trigger i in body[b]} | i in body[b] :: i in code && i in parent && code[i].Op? && parent[i] == b)
      && (forall i {:trigger i in phis[b]} | i in phis[b] :: i in code && i in parent && code[i].Phi? && parent[i] == b)
    }

    // An instruction is listed in the block it belongs to.
    ghost predicate IsPlaced(i: RegId)
      requires i in code
    {
      && i < unused && i in parent && parent[i] in body && parent[i] in phis
      && i in (if code[i].Phi? then phis else body)[parent[i]]
    }

    ghost predicate OperandsOk(i: RegId)
      requires i in code
    {
      OperandsBelow(code[i], unused) && (code[i].Phi? ==> PhiOk(code[i]))
    }

    predicate HasBlock(b: BlockId) {
      b in body && body[b] != [] && body[b][|body[b]| - 1] in code
    }

    // A block's instructions and its terminator.
    function Split(b: BlockId): (seq<RegId>, RegId)
      requires HasBlock(b)
    {
      (body[b][..|body[b]| - 1], body[b][|body[b]| - 1])
    }

    // An incoming value for each incoming block, the same one if a block is repeated.
    ghost predicate PhiOk(phi: Inst)
      requires phi.Phi?
    {
      && |phi.blocks| == |phi.operands|
      && (forall k | 0 <= k < |phi.blocks| :: phi.blocks[k] in body)
      && (forall j, k | 0 <= j < k < |phi.blocks| && phi.blocks[j] == phi.blocks[k] ::
            phi.operands[j] == phi.operands[k])
    }
  }

  ghost predicate Distinct(ids: seq<RegId>) {
    forall j, k | 0 <= j < k < |ids| :: ids[j] != ids[k]
  }

  ghost predicate OperandsBelow(inst: Inst, n: RegId) {
    forall k | 0 <= k < |inst.operands| :: inst.operands[k].Reg? ==> inst.operands[k].r < n
  }

  // ----- meaning -----

  // V is the type of values and M that of everything else a run can touch.
  datatype Machine<!V, !M> = Machine(
    leaf: nat -> V,
    fold: (PureOp, seq<V>) -> V,
    effect: (nat, seq<V>, M) -> (V, M),
    next: (Opcode, seq<V>, M) -> Option<BlockId>)

  datatype State<V, M> = State(regs: RegId -> V, mem: M)

  datatype Config<V, M> = Running(block: BlockId, pred: Option<BlockId>, st: State<V, M>) | Halted(st: State<V, M>)

  function EvalExpr<V, M>(m: Machine<V, M>, e: Expr): V {
    match e
    case Leaf(id) => m.leaf(id)
    case CE(op, args) => m.fold(op, EvalExprs(m, args))
  }

  function EvalExprs<V, M>(m: Machine<V, M>, es: seq<Expr>): (vs: seq<V>)
    ensures |vs| == |es|
  {
    if es == [] then [] else [EvalExpr(m, es[0])] + EvalExprs(m, es[1..])
  }

  function Eval<V, M>(m: Machine<V, M>, regs: RegId -> V, o: Operand): V {
    match o
    case Reg(r) => regs(r)
    case Const(e) => EvalExpr(m, e)
  }

  function EvalAll<V, M>(m: Machine<V, M>, regs: RegId -> V, os: seq<Operand>): seq<V> {
    seq(|os|, k requires 0 <= k < |os| => Eval(m, regs, os[k]))
  }

  function Set<V>(regs: RegId -> V, i: RegId, v: V): RegId -> V {
    (r: RegId) => if r == i then v else regs(r)
  }

  function Execute<V, M>(m: Machine<V, M>, inst: Inst, i: RegId, st: State<V, M>): State<V, M> {
    if inst.Phi? then st
    else
      var vs := EvalAll(m, st.regs, inst.operands);
      match inst.opcode
      case Pure(op) => State(Set(st.regs, i, m.fold(op, vs)), st.mem)
      case Effect(code) => var (v, mem) := m.effect(code, vs, st.mem); State(Set(st.regs, i, v), mem)
  }

  function ExecuteAll<V, M>(m: Machine<V, M>, code: map<RegId, Inst>, ids: seq<RegId>, st: State<V, M>): State<V, M> {
    if ids == [] then st
    else if ids[0] !in code then ExecuteAll(m, code, ids[1..], st)
    else ExecuteAll(m, code, ids[1..], Execute(m, code[ids[0]], ids[0], st))
  }

  // The value a phi takes when control comes from block p.
  function Incoming(phi: Inst, p: BlockId, k: nat := 0): Option<Operand>
    requires phi.Phi?
    decreases |phi.blocks| - k
  {
    if k >= |phi.blocks| || k >= |phi.operands| then None
    else if phi.blocks[k] == p then Some(phi.operands[k])
    else Incoming(phi, p, k + 1)
  }

  function PhiValue<V, M>(m: Machine<V, M>, phi: Inst, pred: Option<BlockId>, regs: RegId -> V, was: V): V
    requires phi.Phi?
  {
    if pred.Some? && Incoming(phi, pred.value).Some? then Eval(m, regs, Incoming(phi, pred.value).value) else was
  }

  function EnterBlock<V, M>(m: Machine<V, M>, f: Func, b: BlockId, pred: Option<BlockId>, st: State<V, M>): State<V,
                            M> {
    State((r: RegId) => if b in f.phis && r in f.phis[b] && r in f.code && f.code[r].Phi?
               then PhiValue(m, f.code[r], pred, st.regs, st.regs(r)) else st.regs(r),
          st.mem)
  }

  function RunTerminator<V, M>(m: Machine<V, M>, term: Inst, i: RegId, b: BlockId, st: State<V, M>): Config<V, M> {
    if term.Phi? then Halted(st)
    else
      var after := Execute(m, term, i, st);
      match m.next(term.opcode, EvalAll(m, st.regs, term.operands), after.mem)
      case None => Halted(after)
      case Some(q) => Running(q, Some(b), after)
  }

  // Run one block: the phis, the body, and the terminator's choice of what comes next.
  function RunBlock<V, M>(m: Machine<V, M>, f: Func, c: Config<V, M>): Config<V, M> {
    if c.Halted? || !f.HasBlock(c.block) then c
    else
      var (before, last) := f.Split(c.block);
      RunTerminator(m, f.code[last], last, c.block,
                    ExecuteAll(m, f.code, before, EnterBlock(m, f, c.block, c.pred, c.st)))
  }

  function Run<V, M>(m: Machine<V, M>, f: Func, c: Config<V, M>, n: nat): Config<V, M> {
    if n == 0 then c else RunBlock(m, f, Run(m, f, c, n - 1))
  }
}
