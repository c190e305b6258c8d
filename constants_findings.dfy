/**
  Three stored programs on which the constants stage, as it is written,
  goes wrong, and what the corrected `write_constraints` and `const_set`
  restriction do on them instead.
 */
module ConstantsFindings {
  import opened Programs
  import opened VarNames
  import opened ConstantsSpec
  import opened Refinement
  import opened ConstSet

  const BV := Sort("BitVec(8)")

  /** Operators in the main context and their translations to the stage's context 1. */
  const AddOrig := Func("add", [BV, BV], BV, true, MainCtx)
  const AddOp   := Func("add", [BV, BV], BV, true, 1)
  const NegOrig := Func("neg", [BV], BV, false, MainCtx)
  const NegOp   := Func("neg", [BV], BV, false, 1)

  // ---------------------------------------------------------------------------
  // An operand that refers to an input

  /** Two inputs, one binary instruction, one output. */
  const AddTables := Tables(Layout(2, 1, 1, 2), [BV, BV], [BV], map[AddOrig := AddOp])

  /** `add(x0, x1)`: both operands refer to inputs. */
  const AddPrg := Prg([Insn(AddOrig, [Arg(false, 0), Arg(false, 1)])], [Arg(false, 2)])

  /**
    As written, the sort of input line 0 is looked up at instruction
    index 0 - 2 of a one-instruction program, so `write_constraints`
    raises IndexError on a well-formed program; the corrected lookup
    gives the input's sort and the constraints are written.
   */
  lemma InputOperandAsWritten()
    ensures ProducerTypeAsWritten(AddTables, AddPrg, 0) == Err("IndexError")
    ensures Constraints(AsWritten, AddTables, AddPrg, "0").Err?
    ensures ProducerType(AddTables, AddPrg, 0) == Ok(BV)
    ensures Constraints(Corrected, AddTables, AddPrg, "0").Ok?
  {
    var t, p := AddTables, AddPrg;
    assert InsnOk(Corrected, t, p, 0) by {
      assert ArgOk(Corrected, t, p, p.insns[0].args[0], 0, AddOp.inTypes);
      assert ArgOk(Corrected, t, p, p.insns[0].args[1], 1, AddOp.inTypes);
    }
    ConstraintsOk(Corrected, t, p, "0");
    assert !InsnOk(AsWritten, t, p, 0) by {
      assert !ArgOk(AsWritten, t, p, p.insns[0].args[0], 0, AddOp.inTypes);
    }
    ConstraintsOk(AsWritten, t, p, "0");
  }

  // ---------------------------------------------------------------------------
  // More than one output

  /** One input, one unary instruction, two outputs. */
  const NegTables := Tables(Layout(1, 1, 2, 1), [BV], [BV, BV], map[NegOrig := NegOp])

  /** `neg(5)`, returned twice. */
  const NegPrg := Prg([Insn(NegOrig, [Arg(true, 5)])], [Arg(false, 1), Arg(false, 1)])

  /** The constant variable of the instruction's operand under instance `fa`. */
  const NegConst := ConstVar(1, 0, BV, Some(FaInstance))

  /** The result variable of the instruction and the output value variables, under instance "0". */
  const NegRes := ResVar(1, BV, Some("0"))
  const NegOuts := [OpndVar(2, 0, BV, Some("0")), OpndVar(2, 1, BV, Some("0"))]

  /**
    As written, the instruction loop runs up to `length - n_outputs`,
    which with two outputs leaves out the only instruction: no semantics
    constraint is written for it and its constant gets no entry in
    `const_set`.
   */
  lemma OutputsSkipInsnAsWritten()
    ensures InsnLoopCount(AsWritten, NegTables.layout) == 0
    ensures var r := Constraints(AsWritten, NegTables, NegPrg, "0");
      r.Ok? && r.value.0 == [Equal(NegRes, NegOuts[0]), Equal(NegRes, NegOuts[1])] && r.value.1 == map[]
  {
    var t, p := NegTables, NegPrg;
    assert |p.outputs| == 2 && p.outputs[0] == p.outputs[1] == Arg(false, 1);
    assert ProducerTypeOf(AsWritten, t, p, 1) == Ok(BV);
    var o0 := OperandVars(AsWritten, t, p, 2, p.outputs, t.outTys, "0", map[], 0);
    assert o0.Ok? && o0.value.0 == [] && o0.value.1 == map[];
    var o1 := OperandVars(AsWritten, t, p, 2, p.outputs, t.outTys, "0", map[], 1);
    assert o1.Ok? && o1.value.0 == [NegRes] && o1.value.1 == map[];
    var o2 := OperandVars(AsWritten, t, p, 2, p.outputs, t.outTys, "0", map[], 2);
    assert o2.Ok? && o2.value.0 == [NegRes, NegRes] && o2.value.1 == map[];
    var ov := OutVars(t, "0");
    assert t.layout.OutInsn() == 2 && t.outTys == [BV, BV];
    assert |ov| == 2 && ov[0] == NegOuts[0] && ov[1] == NegOuts[1];
    assert ov == NegOuts;
    var eqs := Equalities(o2.value.0, OutVars(t, "0"));
    assert eqs == [Equal(NegRes, NegOuts[0]), Equal(NegRes, NegOuts[1])];
  }

  /** The corrected loop visits the instruction and records its constant. */
  lemma OutputsSkipInsnCorrected()
    ensures var r := Constraints(Corrected, NegTables, NegPrg, "0");
      r.Ok? && r.value.0 == [InsnSem(NegOp, NegRes, [NegConst]), Equal(NegRes, NegOuts[0]), Equal(NegRes, NegOuts[1])] &&
      r.value.1 == map[(1, 0) := NegConst]
  {
    var t, p := NegTables, NegPrg;
    var cm := map[(1, 0) := NegConst];
    assert |p.outputs| == 2 && p.outputs[0] == p.outputs[1] == Arg(false, 1);
    assert |p.insns| == 1 && p.insns[0].args == [Arg(true, 5)];
    assert p.insns[0].op in t.opFromOrig && t.opFromOrig[p.insns[0].op] == NegOp;
    assert ProducerTypeOf(Corrected, t, p, 1) == Ok(BV);
    var c0 := OperandVars(Corrected, t, p, 1, p.insns[0].args, NegOp.inTypes, "0", map[], 0);
    assert c0.Ok? && c0.value.0 == [] && c0.value.1 == map[];
    var c1 := OperandVars(Corrected, t, p, 1, p.insns[0].args, NegOp.inTypes, "0", map[], 1);
    assert c1.Ok? && c1.value.0 == [NegConst] && c1.value.1 == cm;
    var i0 := InsnsConstraints(Corrected, t, p, "0", 0);
    assert i0.Ok? && i0.value.0 == [] && i0.value.1 == map[];
    var i1 := InsnsConstraints(Corrected, t, p, "0", 1);
    assert i1.Ok? && i1.value.0 == [InsnSem(NegOp, NegRes, [NegConst])] && i1.value.1 == cm;
    var d0 := OperandVars(Corrected, t, p, 2, p.outputs, t.outTys, "0", cm, 0);
    assert d0.Ok? && d0.value.0 == [] && d0.value.1 == cm;
    var d1 := OperandVars(Corrected, t, p, 2, p.outputs, t.outTys, "0", cm, 1);
    assert d1.Ok? && d1.value.0 == [NegRes] && d1.value.1 == cm;
    var d2 := OperandVars(Corrected, t, p, 2, p.outputs, t.outTys, "0", cm, 2);
    assert d2.Ok? && d2.value.0 == [NegRes, NegRes] && d2.value.1 == cm;
    var ov := OutVars(t, "0");
    assert t.layout.OutInsn() == 2 && t.outTys == [BV, BV];
    assert |ov| == 2 && ov[0] == NegOuts[0] && ov[1] == NegOuts[1];
    assert ov == NegOuts;
    var eqs := Equalities(d2.value.0, OutVars(t, "0"));
    assert eqs == [Equal(NegRes, NegOuts[0]), Equal(NegRes, NegOuts[1])];
  }

  /**
    Rebuilding the program from any answer fails with KeyError on the
    dictionary written as it is, and takes the answer's value for the
    constant with the corrected dictionary.
   */
  lemma OutputsSkipInsnRebuilt(ans: Answer)
    requires NegConst in ans
    ensures ChangedPrg(ans, map[], NegTables.layout, NegPrg) == Err("KeyError")
    ensures var q := ChangedPrg(ans, map[(1, 0) := NegConst], NegTables.layout, NegPrg);
      q.Ok? && q.value.insns == [Insn(NegOrig, [Arg(true, ans[NegConst])])] && q.value.outputs == NegPrg.outputs
  {
    var p := NegPrg;
    var cm := map[(1, 0) := NegConst];
    assert |p.outputs| == 2 && p.outputs[0] == p.outputs[1] == Arg(false, 1);
    assert |p.insns| == 1 && p.insns[0].args == [Arg(true, 5)];
    assert ChangedArgs(ans, map[], 1, p.insns[0].args, 0) == Ok([]);
    assert ChangedArgs(ans, map[], 1, p.insns[0].args, 1) == Err("KeyError");
    assert ChangedInsns(ans, map[], 1, p.insns, 0) == Ok([]);
    assert ChangedInsns(ans, map[], 1, p.insns, 1) == Err("KeyError");
    assert ChangedArgs(ans, cm, 1, p.insns[0].args, 0) == Ok([]);
    var a1 := ChangedArgs(ans, cm, 1, p.insns[0].args, 1);
    assert a1.Ok? && a1.value == [Arg(true, ans[NegConst])];
    assert ChangedInsns(ans, cm, 1, p.insns, 0) == Ok([]);
    var n1 := ChangedInsns(ans, cm, 1, p.insns, 1);
    assert n1.Ok? && n1.value == [Insn(NegOrig, [Arg(true, ans[NegConst])])];
    assert ChangedArgs(ans, cm, 2, p.outputs, 0) == Ok([]);
    var q1 := ChangedArgs(ans, cm, 2, p.outputs, 1);
    assert q1.Ok? && q1.value == [Arg(false, 1)];
    var q2 := ChangedArgs(ans, cm, 2, p.outputs, 2);
    assert q2.Ok? && q2.value == p.outputs;
  }

  // ---------------------------------------------------------------------------
  // The constant restriction

  const NegLayout := Layout(1, 1, 1, 1)

  /** `neg(3)`: its constant is refined from the answer. */
  const ConstPrg := Prg([Insn(NegOrig, [Arg(true, 3)])], [Arg(false, 1)])

  /**
    An answer that satisfies the `const_set` restriction {0} on the
    constant variables without an instance, the variables the stage's
    structural goal restricts, while the constant it refines, the one of
    instance `fa`, is 7.
   */
  const LooseAnswer: Answer := map[ConstVar(1, 0, BV, None) := 0, ConstVar(2, 0, BV, None) := 0,
                                   ConstVar(1, 0, BV, Some(FaInstance)) := 7]

  /** One input, one unary instruction, one output. */
  const ConstTables := Tables(NegLayout, [BV], [BV], map[NegOrig := NegOp])

  /** `write_constraints` as written, on `neg(3)`, records its constant under instance `fa`. */
  lemma ConstPrgRecorded()
    ensures var r := Constraints(AsWritten, ConstTables, ConstPrg, "0");
      r.Ok? && r.value.1 == map[(1, 0) := NegConst]
  {
    var t, p := ConstTables, ConstPrg;
    var cm := map[(1, 0) := NegConst];
    assert |p.outputs| == 1 && p.outputs[0] == Arg(false, 1);
    assert |p.insns| == 1 && p.insns[0].args == [Arg(true, 3)];
    assert p.insns[0].op in t.opFromOrig && t.opFromOrig[p.insns[0].op] == NegOp;
    assert ProducerTypeOf(AsWritten, t, p, 1) == Ok(BV);
    var c0 := OperandVars(AsWritten, t, p, 1, p.insns[0].args, NegOp.inTypes, "0", map[], 0);
    assert c0.Ok? && c0.value.1 == map[];
    var c1 := OperandVars(AsWritten, t, p, 1, p.insns[0].args, NegOp.inTypes, "0", map[], 1);
    assert c1.Ok? && c1.value.1 == cm;
    var i0 := InsnsConstraints(AsWritten, t, p, "0", 0);
    assert i0.Ok? && i0.value.1 == map[];
    var i1 := InsnsConstraints(AsWritten, t, p, "0", 1);
    assert i1.Ok? && i1.value.1 == cm;
    var d0 := OperandVars(AsWritten, t, p, 2, p.outputs, t.outTys, "0", cm, 0);
    assert d0.Ok? && d0.value.1 == cm;
    var d1 := OperandVars(AsWritten, t, p, 2, p.outputs, t.outTys, "0", cm, 1);
    assert d1.Ok? && d1.value.1 == cm;
  }

  /**
    As written, the restriction holds on the instance-less variables and
    the program rebuilt from the recorded `fa` constant still carries the
    constant 7, which is not among the allowed constants; on the `fa`
    variables the constants stage restricts instead, the same answer is
    rejected.
   */
  lemma ConstSetMissesRefinedAsWritten()
    ensures ConstSetHolds(NegLayout, [NegOp], LooseAnswer, None, {(BV, 0)})
    ensures var q := ChangedPrg(LooseAnswer, map[(1, 0) := NegConst], NegLayout, ConstPrg);
      q.Ok? && q.value.insns == [Insn(NegOrig, [Arg(true, 7)])] && (BV, 7) !in {(BV, 0)}
    ensures !ConstSetHolds(NegLayout, [NegOp], LooseAnswer, Some(FaInstance), {(BV, 0)})
  {
    var l, p, ans := NegLayout, ConstPrg, LooseAnswer;
    var cm := map[(1, 0) := NegConst];
    forall i: nat, j: nat, k: nat | l.nInputs <= i < l.Length() && j < 1 && k < Min(|[NegOp][j].inTypes|, l.Arity(i))
      ensures ConstVar(i, k, [NegOp][j].inTypes[k], None) in ans &&
        ([NegOp][j].inTypes[k], ans[ConstVar(i, k, [NegOp][j].inTypes[k], None)]) in {(BV, 0)}
    {
      assert j == 0 && k == 0 && (i == 1 || i == 2);
    }
    assert l.Arity(1) == 1 && 0 < Min(|[NegOp][0].inTypes|, l.Arity(1));
    assert [NegOp][0].inTypes[0] == BV && ans[ConstVar(1, 0, BV, Some(FaInstance))] == 7;
    assert |p.outputs| == 1 && p.outputs[0] == Arg(false, 1);
    assert |p.insns| == 1 && p.insns[0].args == [Arg(true, 3)];
    assert ans[NegConst] == 7;
    assert ChangedArgs(ans, cm, 1, p.insns[0].args, 0) == Ok([]);
    var a1 := ChangedArgs(ans, cm, 1, p.insns[0].args, 1);
    assert a1.Ok? && a1.value == [Arg(true, 7)];
    assert ChangedInsns(ans, cm, 1, p.insns, 0) == Ok([]);
    var n1 := ChangedInsns(ans, cm, 1, p.insns, 1);
    assert n1.Ok? && n1.value == [Insn(NegOrig, [Arg(true, 7)])];
    assert ChangedArgs(ans, cm, 2, p.outputs, 0) == Ok([]);
    var q1 := ChangedArgs(ans, cm, 2, p.outputs, 1);
    assert q1.Ok?;
  }
}
