/**
  Two solver models that satisfy every constraint `SynthN` emits with all
  pruning options on, and whose programs break the property the option is
  meant to guarantee.  The corrected rules of `SynthRules` reject both.
 */
module RuleFindings {
  import opened Programs
  import opened BitVectors
  import opened SynthRules
  import opened ProgramShape

  const BV := Sort("BitVec(8)")

  /** The operators of a synthesizer working in context 1. */
  const NotOp := Func("not", [BV], BV, false, 1)
  const AndOp := Func("and", [BV, BV], BV, true, 1)
  const AddOp := Func("add", [BV, BV], BV, true, 1)
  const XorOp := Func("xor", [BV, BV], BV, true, 1)
  const IdOp  := Func("id", [BV], BV, false, 1)

  /** Every pruning option on, no constant restrictions. */
  const AllOn := Options(None, {}, true, true, true, true, true)

  /** The originals of operators translated to context 1 are the same operators in the main context. */
  function Originals(ops: seq<Func>): (r: map<Func, Func>)
    ensures forall op :: op in ops ==> op in r && r[op] == Translate(op, MainCtx)
  {
    map op | op in ops :: Translate(op, MainCtx)
  }

  lemma OriginalsTable(ops: seq<Func>)
    requires Distinct(ops) && forall op :: op in ops ==> op.ctx == 1
    ensures OpsTable(ops, Originals(ops))
  {
    forall a, b | a in ops && b in ops && Originals(ops)[a] == Originals(ops)[b]
      ensures a == b
    {
      TranslateInjective(a, b, MainCtx);
    }
  }

  lemma SingleSort(ops: seq<Func>)
    requires forall op :: op in ops ==> op.outType == BV && forall t :: t in op.inTypes ==> t == BV
    requires |ops| > 0
    ensures TypesOf(ops) == {BV}
  {
    assert BV in TypesOf(ops) by {
      assert ops[0] in ops;
    }
  }

  // ---------------------------------------------------------------------------
  // No dead code

  /** One input, two instructions `not`, `id` and one output. */
  const DeadLayout := Layout(1, 2, 1, 2)
  const DeadOps := [NotOp, AndOp, IdOp]

  /**
    Slot 1 is `not x0`; slot 2 is the identity of the constant 5, with its
    unused second operand variable pinned to line 1; the output is line 2.
   */
  const DeadModel := Model(
    i => if i == 2 then 2 else 0,
    (i, k) => if i == 2 then 1 else if i == 3 then 2 else 0,
    (i, k) => i == 2 && k == 0,
    (i, k, t) => 5,
    i => BV,
    (i, k) => BV)

  lemma DeadMasks()
    ensures OpndMask(DeadLayout, DeadModel, 1) == 1
    ensures OpndMask(DeadLayout, DeadModel, 2) == 2
  {
    var l, m := DeadLayout, DeadModel;
    var x, y := OpndBits(l, m, 1), OpndBits(l, m, 2);
    assert x[0] by { assert m.opnd(1, 0) == 0; }
    assert y[1] by { assert m.opnd(2, 0) == 1; }
    assert x == [true, false, false, false];
    assert y == [false, true, false, false];
  }

  lemma DeadWellFormed()
    ensures OpsInRange(DeadLayout, DeadOps, DeadModel) && Acyclic(DeadLayout, DeadModel)
    ensures OpsInRange(DeadLayout, DeadOps, DeadModel) ==> UnusedPinned(DeadLayout, DeadOps, DeadModel)
    ensures WithinConstLimit(DeadLayout, DeadModel, AllOn.maxConst) && ConstsFromSet(DeadLayout, DeadOps, DeadModel, AllOn.constSet)
    ensures OpsInRange(DeadLayout, DeadOps, DeadModel) ==> TypeRules(DeadLayout, DeadOps, [BV], [BV], DeadModel)
  {
    SingleSort(DeadOps);
  }

  lemma DeadOptRules()
    ensures OpsInRange(DeadLayout, DeadOps, DeadModel)
    ensures InsnOrder(DeadLayout, DeadModel)
    ensures CommutativeSorted(DeadLayout, DeadOps, DeadModel)
    ensures ConstOperands(DeadLayout, DeadOps, DeadModel, Some(IdOp))
    ensures IdLast(DeadLayout, DeadModel, 2) && OnlyFirstIdConst(DeadLayout, DeadModel, 2)
    ensures NoCseAsWritten(DeadLayout, DeadModel)
  {
    DeadMasks();
    assert InsnOrder(DeadLayout, DeadModel);
    assert CommutativeSorted(DeadLayout, DeadOps, DeadModel);
    forall i: nat | 1 <= i < 3
      ensures ConstRuleAt(DeadLayout, Selected(DeadLayout, DeadOps, DeadModel, i), DeadModel, i, Some(IdOp))
    {
      if i == 1 {
        assert !DeadModel.isConst(1, 0);
      } else {
        assert Selected(DeadLayout, DeadOps, DeadModel, i) == IdOp;
      }
    }
    assert IdLast(DeadLayout, DeadModel, 2);
    assert OnlyFirstIdConst(DeadLayout, DeadModel, 2);
  }

  lemma DeadUsedAsWritten()
    ensures NoDeadCodeAsWritten(DeadLayout, DeadModel)
  {
    var l, m := DeadLayout, DeadModel;
    forall p: nat | l.nInputs <= p < l.Length() && HasLaterOperands(l, p)
      ensures exists c: nat, k: nat :: p < c < l.Length() && k < l.Arity(c) && m.opnd(c, k) == p && !m.isConst(c, k)
    {
      if p == 1 {
        assert m.opnd(2, 1) == 1 && !m.isConst(2, 1);
      } else if p == 2 {
        assert m.opnd(3, 0) == 2 && !m.isConst(3, 0);
      } else {
        assert false;
      }
    }
  }

  lemma DeadProgram()
    ensures OpsInRange(DeadLayout, DeadOps, DeadModel) && OpsTable(DeadOps, Originals(DeadOps))
    ensures !PrgNoDeadCode(1, ProgramOf(DeadLayout, DeadOps, Originals(DeadOps), [BV], DeadModel))
    ensures !NoDeadCode(DeadLayout, DeadOps, DeadModel)
  {
    var l, ops, m := DeadLayout, DeadOps, DeadModel;
    OriginalsTable(ops);
    var p := ProgramOf(l, ops, Originals(ops), [BV], m);
    assert p.insns[1] == InsnAt(l, ops, Originals(ops), m, 2);
    assert p.insns[1].args == [Arg(true, 5)];
    assert p.outputs == [Arg(false, 2)];
    assert !InsnUsed(1, p, 0);
    assert HasLaterOperands(l, 1) by {
      assert l.Arity(2) > 0;
    }
    assert UsedArity(l, ops, m, 2) == 1;
    assert UsedArity(l, ops, m, 3) == 1;
  }

  /**
    The dead-code rule as emitted accepts the model: line 1 counts as used
    because operand variable 1 of slot 2 refers to it, but slot 2 is an
    identity whose only operand is a constant, so the program never reads
    line 1.  The corrected rule rejects the model.
   */
  lemma NoDeadCodeLetsDeadInsnThrough()
    ensures OpsTable(DeadOps, Originals(DeadOps))
    ensures SynthNRules(DeadLayout, DeadOps, [BV], [BV], AllOn, DeadModel)
    ensures !PrgNoDeadCode(1, ProgramOf(DeadLayout, DeadOps, Originals(DeadOps), [BV], DeadModel))
    ensures !NoDeadCode(DeadLayout, DeadOps, DeadModel)
  {
    DeadWellFormed();
    DeadOptRules();
    DeadUsedAsWritten();
    DeadProgram();
  }

  // ---------------------------------------------------------------------------
  // No common subexpressions

  /** One input, three instructions `add`, `add`, `xor` and one output. */
  const CseLayout := Layout(1, 3, 1, 2)
  const CseOps := [AddOp, XorOp, IdOp]

  /**
    Slots 1 and 2 are both `add x0, 5`; they differ only in the operand
    variable behind the constant.  Slot 3 is `xor` of the two, the output
    is line 3.
   */
  const CseModel := Model(
    i => if i == 3 then 1 else 0,
    (i, k) => if i == 2 && k == 1 then 1 else if i == 3 then (if k == 0 then 1 else 2) else if i == 4 then 3 else 0,
    (i, k) => (i == 1 || i == 2) && k == 1,
    (i, k, t) => 5,
    i => BV,
    (i, k) => BV)

  lemma CseMasks()
    ensures OpndMask(CseLayout, CseModel, 1) == 1
    ensures OpndMask(CseLayout, CseModel, 2) == 3
    ensures OpndMask(CseLayout, CseModel, 3) == 6
  {
    var l, m := CseLayout, CseModel;
    var x, y, z := OpndBits(l, m, 1), OpndBits(l, m, 2), OpndBits(l, m, 3);
    assert x[0] by { assert m.opnd(1, 0) == 0; }
    assert y[0] && y[1] by { assert m.opnd(2, 0) == 0 && m.opnd(2, 1) == 1; }
    assert z[1] && z[2] by { assert m.opnd(3, 0) == 1 && m.opnd(3, 1) == 2; }
    assert x == [true, false, false, false, false];
    assert y == [true, true, false, false, false];
    assert z == [false, true, true, false, false];
  }

  lemma CseWellFormed()
    ensures OpsInRange(CseLayout, CseOps, CseModel) && Acyclic(CseLayout, CseModel)
    ensures OpsInRange(CseLayout, CseOps, CseModel) ==> UnusedPinned(CseLayout, CseOps, CseModel)
    ensures WithinConstLimit(CseLayout, CseModel, AllOn.maxConst) && ConstsFromSet(CseLayout, CseOps, CseModel, AllOn.constSet)
    ensures OpsInRange(CseLayout, CseOps, CseModel) ==> TypeRules(CseLayout, CseOps, [BV], [BV], CseModel)
  {
    SingleSort(CseOps);
  }

  lemma CseCommutative()
    ensures OpsInRange(CseLayout, CseOps, CseModel) && CommutativeSorted(CseLayout, CseOps, CseModel)
  {
  }

  lemma CseOptRules()
    ensures OpsInRange(CseLayout, CseOps, CseModel)
    ensures InsnOrder(CseLayout, CseModel)
    ensures CommutativeSorted(CseLayout, CseOps, CseModel)
    ensures ConstOperands(CseLayout, CseOps, CseModel, Some(IdOp))
    ensures IdLast(CseLayout, CseModel, 2) && OnlyFirstIdConst(CseLayout, CseModel, 2)
  {
    CseMasks();
    CseCommutative();
  }

  lemma CseAsWritten()
    ensures NoCseAsWritten(CseLayout, CseModel)
    ensures NoDeadCodeAsWritten(CseLayout, CseModel)
  {
    var l, m := CseLayout, CseModel;
    forall i: nat, o: nat | l.nInputs <= o < i < l.OutInsn() && m.op(i) == m.op(o)
      ensures exists k: nat :: k < l.maxArity && m.opnd(i, k) != m.opnd(o, k)
    {
      assert i == 2 && o == 1;
      assert m.opnd(2, 1) != m.opnd(1, 1);
    }
    forall p: nat | l.nInputs <= p < l.Length() && HasLaterOperands(l, p)
      ensures exists c: nat, k: nat :: p < c < l.Length() && k < l.Arity(c) && m.opnd(c, k) == p && !m.isConst(c, k)
    {
      if p == 1 {
        assert m.opnd(3, 0) == 1 && !m.isConst(3, 0);
      } else if p == 2 {
        assert m.opnd(3, 1) == 2 && !m.isConst(3, 1);
      } else if p == 3 {
        assert m.opnd(4, 0) == 3 && !m.isConst(4, 0);
      } else {
        assert false;
      }
    }
  }

  lemma CseProgram()
    ensures OpsInRange(CseLayout, CseOps, CseModel) && OpsTable(CseOps, Originals(CseOps))
    ensures !PrgNoDuplicates(ProgramOf(CseLayout, CseOps, Originals(CseOps), [BV], CseModel))
    ensures !NoCse(CseLayout, CseOps, CseModel)
  {
    var l, ops, m := CseLayout, CseOps, CseModel;
    OriginalsTable(ops);
    var p := ProgramOf(l, ops, Originals(ops), [BV], m);
    assert p.insns[0] == InsnAt(l, ops, Originals(ops), m, 1);
    assert p.insns[1] == InsnAt(l, ops, Originals(ops), m, 2);
    assert p.insns[0].args == [Arg(false, 0), Arg(true, 5)];
    assert p.insns[1].args == [Arg(false, 0), Arg(true, 5)];
    assert ArgsOf(m, 2, AddOp.inTypes, 2) == ArgsOf(m, 1, AddOp.inTypes, 2);
  }

  /**
    The no-CSE rule as emitted accepts the model because it compares
    operand variables, constant or not; the program then computes the same
    instruction twice.  The corrected rule rejects the model.
   */
  lemma NoCseLetsDuplicatesThrough()
    ensures OpsTable(CseOps, Originals(CseOps))
    ensures SynthNRules(CseLayout, CseOps, [BV], [BV], AllOn, CseModel)
    ensures !PrgNoDuplicates(ProgramOf(CseLayout, CseOps, Originals(CseOps), [BV], CseModel))
    ensures !NoCse(CseLayout, CseOps, CseModel)
  {
    CseWellFormed();
    CseOptRules();
    CseAsWritten();
    CseProgram();
  }
}
