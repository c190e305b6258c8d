/**
  What the search-space constraints mean for the synthesized program: each
  rule of `SynthRules` is matched by a property of the program `create_prg`
  reads off a model the rules admit, stated on the program alone.
 */
module ProgramShape {
  import opened Programs
  import opened BitVectors
  import opened SynthRules

  // ---------------------------------------------------------------------------
  // Properties of programs

  /** Every non-constant operand refers to an input or an earlier instruction. */
  predicate PrgAcyclic(nIn: nat, p: Prg)
  {
    (forall j, k :: 0 <= j < |p.insns| && 0 <= k < |p.insns[j].args| && !p.insns[j].args[k].isConst ==>
       0 <= p.insns[j].args[k].value < nIn + j) &&
    (forall k :: 0 <= k < |p.outputs| && !p.outputs[k].isConst ==> 0 <= p.outputs[k].value < nIn + |p.insns|)
  }

  /** Every instruction has as many operands as its operator takes. */
  predicate ArgsMatchArity(p: Prg)
  {
    forall j :: 0 <= j < |p.insns| ==> |p.insns[j].args| == p.insns[j].op.Arity()
  }

  /** Line v is a non-constant operand of an instruction after position j or of an output. */
  predicate UsedAfter(p: Prg, j: nat, v: int)
  {
    (exists j2, k :: j < j2 < |p.insns| && 0 <= k < |p.insns[j2].args| &&
       !p.insns[j2].args[k].isConst && p.insns[j2].args[k].value == v) ||
    (exists k :: 0 <= k < |p.outputs| && !p.outputs[k].isConst && p.outputs[k].value == v)
  }

  /** The result of instruction j, line nIn + j, is used. */
  predicate InsnUsed(nIn: nat, p: Prg, j: nat)
  {
    UsedAfter(p, j, nIn + j)
  }

  /** The result of every instruction is used. */
  predicate PrgNoDeadCode(nIn: nat, p: Prg)
  {
    forall j: nat :: j < |p.insns| ==> InsnUsed(nIn, p, j)
  }

  /** The non-constant operands of a commutative operator are in non-decreasing order. */
  predicate PrgCommutativeSorted(p: Prg)
  {
    forall j, k, k2 ::
      0 <= j < |p.insns| && p.insns[j].op.commutative && 0 <= k < k2 < |p.insns[j].args| &&
      !p.insns[j].args[k].isConst && !p.insns[j].args[k2].isConst ==>
        p.insns[j].args[k].value <= p.insns[j].args[k2].value
  }

  predicate HasConstArg(ins: Insn)
  {
    exists k :: 0 <= k < |ins.args| && ins.args[k].isConst
  }

  /**
    A binary commutative instruction has a non-constant first operand; any
    other instruction, except one of operator `exempt`, has a non-constant
    operand.
   */
  predicate ConstArgRule(ins: Insn, exempt: Option<Func>)
  {
    if ins.op.Arity() == 2 && ins.op.commutative then |ins.args| > 0 && !ins.args[0].isConst
    else exempt == Some(ins.op) || exists k :: 0 <= k < |ins.args| && !ins.args[k].isConst
  }

  predicate PrgConstOperands(p: Prg, exempt: Option<Func>)
  {
    forall j :: 0 <= j < |p.insns| ==> ConstArgRule(p.insns[j], exempt)
  }

  /** Identities only appear as a block at the end of the instructions. */
  predicate PrgIdAtEnd(p: Prg, id: Func)
  {
    forall j, j2 :: 0 <= j < j2 < |p.insns| && p.insns[j].op == id ==> p.insns[j2].op == id
  }

  /** An identity with a constant operand is the first identity. */
  predicate PrgConstIdFirst(p: Prg, id: Func)
  {
    forall j, j2 :: 0 <= j < j2 < |p.insns| && p.insns[j2].op == id && HasConstArg(p.insns[j2]) ==>
      p.insns[j].op != id
  }

  /** No instruction is repeated. */
  predicate PrgNoDuplicates(p: Prg)
  {
    forall j, j2 :: 0 <= j < j2 < |p.insns| ==> p.insns[j] != p.insns[j2]
  }

  /** The type of line v: an input's sort or an instruction's result sort. */
  function SlotType(inTys: seq<Sort>, p: Prg, v: int): Option<Sort>
  {
    if 0 <= v < |inTys| then Some(inTys[v])
    else if |inTys| <= v < |inTys| + |p.insns| then Some(p.insns[v - |inTys|].op.outType)
    else None
  }

  /** Every non-constant operand refers to a line of the operand's type. */
  predicate PrgTyped(inTys: seq<Sort>, outTys: seq<Sort>, p: Prg)
  {
    (forall j, k :: 0 <= j < |p.insns| && 0 <= k < |p.insns[j].args| && !p.insns[j].args[k].isConst ==>
       k < |p.insns[j].op.inTypes| && SlotType(inTys, p, p.insns[j].args[k].value) == Some(p.insns[j].op.inTypes[k])) &&
    (forall k :: 0 <= k < |p.outputs| && !p.outputs[k].isConst ==>
       k < |outTys| && SlotType(inTys, p, p.outputs[k].value) == Some(outTys[k]))
  }

  /** Every constant operand of an instruction is a constant of `constSet` of its sort. */
  predicate PrgConstsFrom(p: Prg, constSet: set<(Sort, int)>)
  {
    forall j, k :: 0 <= j < |p.insns| && 0 <= k < |p.insns[j].args| && p.insns[j].args[k].isConst ==>
      k < |p.insns[j].op.inTypes| && (p.insns[j].op.inTypes[k], p.insns[j].args[k].value) in constSet
  }

  function ConstArgCount(args: seq<Arg>): (r: nat)
    ensures r <= |args|
  {
    if args == [] then 0 else ConstArgCount(args[..|args| - 1]) + (if args[|args| - 1].isConst then 1 else 0)
  }

  /** The number of constant operands over all instructions (outputs not counted). */
  function InsnConstCount(insns: seq<Insn>): nat
  {
    if insns == [] then 0 else ConstArgCount(insns[0].args) + InsnConstCount(insns[1..])
  }

  // ---------------------------------------------------------------------------
  // The rules imply the properties

  /** The layout leaves room for every operator's operands. */
  predicate LayoutFits(l: Layout, ops: seq<Func>)
  {
    forall op :: op in ops ==> op.Arity() <= l.maxArity
  }

  lemma ProgramOfAcyclic(l: Layout, ops: seq<Func>, origOps: map<Func, Func>, outTys: seq<Sort>, m: Model)
    requires OpsInRange(l, ops, m) && OpsTable(ops, origOps) && |outTys| == l.nOutputs && LayoutFits(l, ops)
    requires Acyclic(l, m)
    ensures PrgAcyclic(l.nInputs, ProgramOf(l, ops, origOps, outTys, m))
    ensures ArgsMatchArity(ProgramOf(l, ops, origOps, outTys, m))
  {
    var p := ProgramOf(l, ops, origOps, outTys, m);
    forall j, k | 0 <= j < |p.insns| && 0 <= k < |p.insns[j].args| && !p.insns[j].args[k].isConst
      ensures 0 <= p.insns[j].args[k].value < l.nInputs + j
    {
      var i := l.nInputs + j;
      assert p.insns[j].args[k] == ArgOf(m, i, k, Selected(l, ops, m, i).inTypes[k]);
      assert k < l.Arity(i);
    }
    forall j | 0 <= j < |p.insns|
      ensures |p.insns[j].args| == p.insns[j].op.Arity()
    {
      var op := Selected(l, ops, m, l.nInputs + j);
      assert op in ops;
    }
  }

  lemma ProgramOfNoDeadCode(l: Layout, ops: seq<Func>, origOps: map<Func, Func>, outTys: seq<Sort>, m: Model)
    requires OpsInRange(l, ops, m) && OpsTable(ops, origOps) && |outTys| == l.nOutputs
    requires l.nOutputs >= 1
    requires NoDeadCode(l, ops, m)
    ensures PrgNoDeadCode(l.nInputs, ProgramOf(l, ops, origOps, outTys, m))
  {
    var p := ProgramOf(l, ops, origOps, outTys, m);
    forall j: nat | j < |p.insns|
      ensures InsnUsed(l.nInputs, p, j)
    {
      var v := l.nInputs + j;
      assert l.Arity(l.OutInsn()) > 0;
      assert HasLaterOperands(l, v);
      var c: nat, k: nat :| v < c < l.Length() && k < UsedArity(l, ops, m, c) && m.opnd(c, k) == v && !m.isConst(c, k);
      if c < l.OutInsn() {
        var j2 := c - l.nInputs;
        assert p.insns[j2] == InsnAt(l, ops, origOps, m, c);
        assert p.insns[j2].args[k] == ArgOf(m, c, k, Selected(l, ops, m, c).inTypes[k]);
        assert j < j2 < |p.insns| && 0 <= k < |p.insns[j2].args| &&
          !p.insns[j2].args[k].isConst && p.insns[j2].args[k].value == v;
      } else {
        assert p.outputs[k] == ArgOf(m, c, k, outTys[k]);
        assert 0 <= k < |p.outputs| && !p.outputs[k].isConst && p.outputs[k].value == v;
      }
    }
  }

  /** Adjacent pairs in order put the whole range in order. */
  lemma {:induction false} ChainSorted(f: nat -> nat, n: nat, k: nat, k2: nat)
    requires forall a: nat :: a + 1 < n ==> f(a) <= f(a + 1)
    requires k <= k2 < n
    ensures f(k) <= f(k2)
  {
    if k < k2 {
      ChainSorted(f, n, k, k2 - 1);
    }
  }

  lemma ProgramOfCommutativeSorted(l: Layout, ops: seq<Func>, origOps: map<Func, Func>, outTys: seq<Sort>, m: Model)
    requires OpsInRange(l, ops, m) && OpsTable(ops, origOps) && |outTys| == l.nOutputs && LayoutFits(l, ops)
    requires CommutativeSorted(l, ops, m)
    ensures PrgCommutativeSorted(ProgramOf(l, ops, origOps, outTys, m))
  {
    var p := ProgramOf(l, ops, origOps, outTys, m);
    forall j, k, k2 |
      0 <= j < |p.insns| && p.insns[j].op.commutative && 0 <= k < k2 < |p.insns[j].args| &&
      !p.insns[j].args[k].isConst && !p.insns[j].args[k2].isConst
      ensures p.insns[j].args[k].value <= p.insns[j].args[k2].value
    {
      var i := l.nInputs + j;
      var op := Selected(l, ops, m, i);
      assert op in ops;
      var n := op.Arity();
      assert CommPairs(n, l.maxArity) == n - 1;
      var f: nat -> nat := a => m.opnd(i, a);
      ChainSorted(f, n, k, k2);
      assert p.insns[j].args[k] == ArgOf(m, i, k, op.inTypes[k]);
      assert p.insns[j].args[k2] == ArgOf(m, i, k2, op.inTypes[k2]);
    }
  }

  lemma ProgramOfConstOperands(l: Layout, ops: seq<Func>, origOps: map<Func, Func>, outTys: seq<Sort>, m: Model, exempt: Option<Func>)
    requires OpsInRange(l, ops, m) && OpsTable(ops, origOps) && |outTys| == l.nOutputs && LayoutFits(l, ops)
    requires exempt.Some? ==> exempt.value in ops
    requires ConstOperands(l, ops, m, exempt)
    ensures PrgConstOperands(ProgramOf(l, ops, origOps, outTys, m),
                             if exempt.Some? then Some(origOps[exempt.value]) else None)
  {
    var p := ProgramOf(l, ops, origOps, outTys, m);
    var e := if exempt.Some? then Some(origOps[exempt.value]) else None;
    forall j | 0 <= j < |p.insns|
      ensures ConstArgRule(p.insns[j], e)
    {
      var i := l.nInputs + j;
      var op := Selected(l, ops, m, i);
      assert op in ops;
      assert ConstRuleAt(l, op, m, i, exempt);
      if op.Arity() == 2 && op.commutative {
        assert p.insns[j].args[0] == ArgOf(m, i, 0, op.inTypes[0]);
      } else if exempt == Some(op) {
      } else {
        var k: nat :| k < Min(op.Arity(), l.maxArity) && !m.isConst(i, k);
        assert p.insns[j].args[k] == ArgOf(m, i, k, op.inTypes[k]);
      }
    }
  }

  lemma ProgramOfIdAtEnd(l: Layout, ops: seq<Func>, origOps: map<Func, Func>, outTys: seq<Sort>, m: Model)
    requires OpsInRange(l, ops, m) && OpsTable(ops, origOps) && |outTys| == l.nOutputs && |ops| >= 1
    requires IdLast(l, m, |ops| - 1)
    ensures PrgIdAtEnd(ProgramOf(l, ops, origOps, outTys, m), origOps[ops[|ops| - 1]])
  {
    var p := ProgramOf(l, ops, origOps, outTys, m);
    var id := ops[|ops| - 1];
    forall j, j2 | 0 <= j < j2 < |p.insns| && p.insns[j].op == origOps[id]
      ensures p.insns[j2].op == origOps[id]
    {
      var i := l.nInputs + j;
      assert ops[m.op(i)] == id;
      assert m.op(i) == |ops| - 1;
    }
  }

  lemma ProgramOfConstIdFirst(l: Layout, ops: seq<Func>, origOps: map<Func, Func>, outTys: seq<Sort>, m: Model)
    requires OpsInRange(l, ops, m) && OpsTable(ops, origOps) && |outTys| == l.nOutputs && |ops| >= 1
    requires OnlyFirstIdConst(l, m, |ops| - 1)
    ensures PrgConstIdFirst(ProgramOf(l, ops, origOps, outTys, m), origOps[ops[|ops| - 1]])
  {
    var p := ProgramOf(l, ops, origOps, outTys, m);
    var id := ops[|ops| - 1];
    forall j, j2 | 0 <= j < j2 < |p.insns| && p.insns[j2].op == origOps[id] && HasConstArg(p.insns[j2])
      ensures p.insns[j].op != origOps[id]
    {
      var i, i2 := l.nInputs + j, l.nInputs + j2;
      assert ops[m.op(i2)] == id;
      assert m.op(i2) == |ops| - 1;
      var k :| 0 <= k < |p.insns[j2].args| && p.insns[j2].args[k].isConst;
      assert p.insns[j2].args[k] == ArgOf(m, i2, k, Selected(l, ops, m, i2).inTypes[k]);
      assert HasConstFlag(m, i2, l.maxArity);
      assert m.op(i) != |ops| - 1;
    }
  }

  lemma ProgramOfNoDuplicates(l: Layout, ops: seq<Func>, origOps: map<Func, Func>, outTys: seq<Sort>, m: Model)
    requires OpsInRange(l, ops, m) && OpsTable(ops, origOps) && |outTys| == l.nOutputs
    requires NoCse(l, ops, m)
    ensures PrgNoDuplicates(ProgramOf(l, ops, origOps, outTys, m))
  {
    var p := ProgramOf(l, ops, origOps, outTys, m);
    forall j, j2 | 0 <= j < j2 < |p.insns|
      ensures p.insns[j] != p.insns[j2]
    {
      var i, i2 := l.nInputs + j, l.nInputs + j2;
      assert p.insns[j] == InsnAt(l, ops, origOps, m, i);
      assert p.insns[j2] == InsnAt(l, ops, origOps, m, i2);
      if m.op(i) == m.op(i2) {
        assert p.insns[j].args != p.insns[j2].args;
      } else {
        assert ops[m.op(i)] != ops[m.op(i2)];
        assert origOps[Selected(l, ops, m, i)] != origOps[Selected(l, ops, m, i2)];
      }
    }
  }

  /** Under the type rules, the type of a line below slot i is the result type of that slot. */
  lemma SlotTypeIsResType(l: Layout, ops: seq<Func>, origOps: map<Func, Func>, inTys: seq<Sort>, outTys: seq<Sort>, m: Model, v: nat)
    requires OpsInRange(l, ops, m) && OpsTable(ops, origOps)
    requires |inTys| == l.nInputs && |outTys| == l.nOutputs
    requires OpTypes(l, ops, m) && forall i: nat :: i < l.nInputs ==> m.resType(i) == inTys[i]
    requires v < l.OutInsn()
    ensures SlotType(inTys, ProgramOf(l, ops, origOps, outTys, m), v) == Some(m.resType(v))
  {
    var p := ProgramOf(l, ops, origOps, outTys, m);
    if l.nInputs <= v {
      assert p.insns[v - l.nInputs] == InsnAt(l, ops, origOps, m, v);
      assert Selected(l, ops, m, v) in ops;
    }
  }

  lemma InsnOperandsTyped(l: Layout, ops: seq<Func>, origOps: map<Func, Func>, inTys: seq<Sort>, outTys: seq<Sort>, m: Model)
    requires OpsInRange(l, ops, m) && OpsTable(ops, origOps) && LayoutFits(l, ops)
    requires |inTys| == l.nInputs && |outTys| == l.nOutputs
    requires Acyclic(l, m) && OpTypes(l, ops, m) && OperandTypes(l, m)
    requires forall i: nat :: i < l.nInputs ==> m.resType(i) == inTys[i]
    ensures var p := ProgramOf(l, ops, origOps, outTys, m);
      forall j, k :: 0 <= j < |p.insns| && 0 <= k < |p.insns[j].args| && !p.insns[j].args[k].isConst ==>
        k < |p.insns[j].op.inTypes| && SlotType(inTys, p, p.insns[j].args[k].value) == Some(p.insns[j].op.inTypes[k])
  {
    var p := ProgramOf(l, ops, origOps, outTys, m);
    forall j, k | 0 <= j < |p.insns| && 0 <= k < |p.insns[j].args| && !p.insns[j].args[k].isConst
      ensures k < |p.insns[j].op.inTypes| && SlotType(inTys, p, p.insns[j].args[k].value) == Some(p.insns[j].op.inTypes[k])
    {
      var i := l.nInputs + j;
      var op := Selected(l, ops, m, i);
      assert op in ops;
      assert p.insns[j] == InsnAt(l, ops, origOps, m, i);
      assert p.insns[j].args[k] == ArgOf(m, i, k, op.inTypes[k]);
      assert k < l.Arity(i);
      assert m.opndType(i, k) == op.inTypes[k];
      assert m.opndType(i, k) == m.resType(m.opnd(i, k));
      SlotTypeIsResType(l, ops, origOps, inTys, outTys, m, m.opnd(i, k));
    }
  }

  lemma OutputsTyped(l: Layout, ops: seq<Func>, origOps: map<Func, Func>, inTys: seq<Sort>, outTys: seq<Sort>, m: Model)
    requires OpsInRange(l, ops, m) && OpsTable(ops, origOps)
    requires |inTys| == l.nInputs && |outTys| == l.nOutputs
    requires Acyclic(l, m) && OpTypes(l, ops, m) && OperandTypes(l, m)
    requires forall i: nat :: i < l.nInputs ==> m.resType(i) == inTys[i]
    requires forall k: nat :: k < l.nOutputs ==> m.opndType(l.OutInsn(), k) == outTys[k]
    ensures var p := ProgramOf(l, ops, origOps, outTys, m);
      forall k :: 0 <= k < |p.outputs| && !p.outputs[k].isConst ==>
        k < |outTys| && SlotType(inTys, p, p.outputs[k].value) == Some(outTys[k])
  {
    var p := ProgramOf(l, ops, origOps, outTys, m);
    forall k | 0 <= k < |p.outputs| && !p.outputs[k].isConst
      ensures k < |outTys| && SlotType(inTys, p, p.outputs[k].value) == Some(outTys[k])
    {
      var i := l.OutInsn();
      assert p.outputs[k] == ArgOf(m, i, k, outTys[k]);
      assert k < l.Arity(i);
      assert m.opndType(i, k) == m.resType(m.opnd(i, k));
      SlotTypeIsResType(l, ops, origOps, inTys, outTys, m, m.opnd(i, k));
    }
  }

  /** When the operators mention several sorts, every reference has the sort its use expects. */
  lemma ProgramOfTyped(l: Layout, ops: seq<Func>, origOps: map<Func, Func>, inTys: seq<Sort>, outTys: seq<Sort>, m: Model)
    requires OpsInRange(l, ops, m) && OpsTable(ops, origOps) && LayoutFits(l, ops)
    requires |inTys| == l.nInputs && |outTys| == l.nOutputs
    requires Acyclic(l, m) && TypeRules(l, ops, inTys, outTys, m) && |TypesOf(ops)| > 1
    ensures PrgTyped(inTys, outTys, ProgramOf(l, ops, origOps, outTys, m))
  {
    InsnOperandsTyped(l, ops, origOps, inTys, outTys, m);
    OutputsTyped(l, ops, origOps, inTys, outTys, m);
  }

  lemma ProgramOfConstsFrom(l: Layout, ops: seq<Func>, origOps: map<Func, Func>, outTys: seq<Sort>, m: Model, constSet: set<(Sort, int)>)
    requires OpsInRange(l, ops, m) && OpsTable(ops, origOps) && |outTys| == l.nOutputs && LayoutFits(l, ops)
    requires constSet != {} && ConstsFromSet(l, ops, m, constSet)
    ensures PrgConstsFrom(ProgramOf(l, ops, origOps, outTys, m), constSet)
    ensures forall k, j ::
      (0 <= k < l.nOutputs && 0 <= j < |ops| && k < |ops[j].inTypes| && ops[j].inTypes[k] == outTys[k] &&
       ProgramOf(l, ops, origOps, outTys, m).outputs[k].isConst) ==>
        (outTys[k], ProgramOf(l, ops, origOps, outTys, m).outputs[k].value) in constSet
  {
    var p := ProgramOf(l, ops, origOps, outTys, m);
    forall j, k | 0 <= j < |p.insns| && 0 <= k < |p.insns[j].args| && p.insns[j].args[k].isConst
      ensures k < |p.insns[j].op.inTypes| && (p.insns[j].op.inTypes[k], p.insns[j].args[k].value) in constSet
    {
      var i := l.nInputs + j;
      var op := Selected(l, ops, m, i);
      assert p.insns[j].args[k] == ArgOf(m, i, k, op.inTypes[k]);
      assert k < Min(|ops[m.op(i)].inTypes|, l.Arity(i));
    }
    forall k, j | 0 <= k < l.nOutputs && 0 <= j < |ops| && k < |ops[j].inTypes| && ops[j].inTypes[k] == outTys[k] &&
      p.outputs[k].isConst
      ensures (outTys[k], p.outputs[k].value) in constSet
    {
      var i := l.OutInsn();
      assert p.outputs[k] == ArgOf(m, i, k, outTys[k]);
      assert k < Min(|ops[j].inTypes|, l.Arity(i));
    }
  }

  // ---------------------------------------------------------------------------
  // The constant limit

  lemma {:induction false} FlagCountMonotone(m: Model, i: nat, a: nat, b: nat)
    requires a <= b
    ensures FlagCount(m, i, a) <= FlagCount(m, i, b)
  {
    if a < b {
      FlagCountMonotone(m, i, a, b - 1);
    }
  }

  lemma {:induction false} ArgsConstCount(m: Model, i: nat, tys: seq<Sort>, n: nat, c: nat)
    requires c <= Min(|tys|, n)
    ensures ConstArgCount(ArgsOf(m, i, tys, n)[..c]) == FlagCount(m, i, c)
  {
    if c > 0 {
      var a := ArgsOf(m, i, tys, n);
      assert a[..c][..c - 1] == a[..c - 1];
      ArgsConstCount(m, i, tys, n, c - 1);
      assert a[c - 1] == ArgOf(m, i, c - 1, tys[c - 1]);
    }
  }

  /** An instruction read off slot i has at most as many constants as the slot's set flags. */
  lemma InsnAtConstCount(l: Layout, ops: seq<Func>, origOps: map<Func, Func>, m: Model, i: nat)
    requires OpsInRange(l, ops, m) && OpsTable(ops, origOps) && l.nInputs <= i < l.OutInsn()
    ensures ConstArgCount(InsnAt(l, ops, origOps, m, i).args) <= FlagCount(m, i, l.maxArity)
  {
    var tys := Selected(l, ops, m, i).inTypes;
    var a := ArgsOf(m, i, tys, l.maxArity);
    assert a[..|a|] == a;
    ArgsConstCount(m, i, tys, l.maxArity, |a|);
    FlagCountMonotone(m, i, |a|, l.maxArity);
  }

  /** Instruction k has at most as many constants as slot lo + k has set flags among its first n. */
  predicate ConstsWithinFlags(insns: seq<Insn>, m: Model, lo: nat, n: nat)
  {
    forall k :: 0 <= k < |insns| ==> ConstArgCount(insns[k].args) <= FlagCount(m, lo + k, n)
  }

  /** Instructions whose constants stay within their slots' flags stay within the flags of all their slots. */
  lemma {:induction false} InsnsConstCount(insns: seq<Insn>, m: Model, lo: nat, n: nat, j: nat)
    requires j <= |insns| && ConstsWithinFlags(insns, m, lo, n)
    ensures InsnConstCount(insns[j..]) <= ConstCount(m, lo + j, lo + |insns|, n)
    decreases |insns| - j
  {
    if j < |insns| {
      assert insns[j..][1..] == insns[j + 1..];
      InsnsConstCount(insns, m, lo, n, j + 1);
    }
  }

  lemma ProgramConstCount(l: Layout, ops: seq<Func>, origOps: map<Func, Func>, outTys: seq<Sort>, m: Model)
    requires OpsInRange(l, ops, m) && OpsTable(ops, origOps) && |outTys| == l.nOutputs
    ensures InsnConstCount(ProgramOf(l, ops, origOps, outTys, m).insns) <=
            ConstCount(m, l.nInputs, l.OutInsn(), l.maxArity)
  {
    var insns := ProgramOf(l, ops, origOps, outTys, m).insns;
    ProgramSlotConsts(l, ops, origOps, outTys, m);
    InsnsConstCount(insns, m, l.nInputs, l.maxArity, 0);
    assert insns[0..] == insns;
  }

  lemma ProgramSlotConsts(l: Layout, ops: seq<Func>, origOps: map<Func, Func>, outTys: seq<Sort>, m: Model)
    requires OpsInRange(l, ops, m) && OpsTable(ops, origOps) && |outTys| == l.nOutputs
    ensures ConstsWithinFlags(ProgramOf(l, ops, origOps, outTys, m).insns, m, l.nInputs, l.maxArity)
  {
    var insns := ProgramOf(l, ops, origOps, outTys, m).insns;
    forall k | 0 <= k < |insns|
      ensures ConstArgCount(insns[k].args) <= FlagCount(m, l.nInputs + k, l.maxArity)
    {
      InsnAtConstCount(l, ops, origOps, m, l.nInputs + k);
    }
  }

  /** With `max_const` given, the instructions hold at most that many constants. */
  lemma ProgramOfConstLimit(l: Layout, ops: seq<Func>, origOps: map<Func, Func>, outTys: seq<Sort>, m: Model, maxConst: nat)
    requires OpsInRange(l, ops, m) && OpsTable(ops, origOps) && |outTys| == l.nOutputs
    requires WithinConstLimit(l, m, Some(maxConst))
    ensures InsnConstCount(ProgramOf(l, ops, origOps, outTys, m).insns) <= maxConst
  {
    ProgramConstCount(l, ops, origOps, outTys, m);
  }

  // ---------------------------------------------------------------------------
  // Instruction order

  /** The largest of the first n operand variables of slot i. */
  function MaxOpnd(m: Model, i: nat, n: nat): (r: nat)
    ensures forall k: nat :: k < n ==> m.opnd(i, k) <= r
    ensures n > 0 ==> exists k: nat :: k < n && m.opnd(i, k) == r
  {
    if n == 0 then 0
    else
      var r := MaxOpnd(m, i, n - 1);
      if m.opnd(i, n - 1) >= r then m.opnd(i, n - 1) else r
  }

  /** The operand mask of slot i lies between 2^h and 2^(h+1) for its highest operand h. */
  lemma OpndMaskBounds(l: Layout, m: Model, i: nat)
    requires Acyclic(l, m)
    requires l.nInputs <= i < l.OutInsn() && l.maxArity > 0
    ensures var h := MaxOpnd(m, i, l.maxArity);
      h < l.Length() && Pow2(h) <= OpndMask(l, m, i) < Pow2(h + 1)
  {
    var n := l.maxArity;
    var h := MaxOpnd(m, i, n);
    var k: nat :| k < n && m.opnd(i, k) == h;
    assert l.Arity(i) == n;
    var x := OpndBits(l, m, i);
    assert h < l.Length();
    assert x[h];
    ToNatAtLeastBit(x, h);
    forall j | h + 1 <= j < |x|
      ensures !x[j]
    {
    }
    ToNatBelowBit(x, h + 1);
  }

  /**
    The operand-mask order sorts the instructions by their highest operand:
    the largest line an instruction refers to never decreases.
   */
  lemma InsnOrderSortsByHighestOperand(l: Layout, m: Model, i: nat)
    requires Acyclic(l, m) && InsnOrder(l, m)
    requires l.nInputs <= i && i + 1 < l.OutInsn()
    ensures MaxOpnd(m, i, l.maxArity) <= MaxOpnd(m, i + 1, l.maxArity)
  {
    if l.maxArity > 0 {
      var a, b := MaxOpnd(m, i, l.maxArity), MaxOpnd(m, i + 1, l.maxArity);
      var x, y := OpndMask(l, m, i), OpndMask(l, m, i + 1);
      OpndMaskBounds(l, m, i);
      OpndMaskBounds(l, m, i + 1);
      assert x <= y;
      assert Pow2(a) <= x && y < Pow2(b + 1);
      Pow2Ordered(a, b + 1);
    }
  }

}
