/**
  The constants stage, `SynthConstants`: given a program found for the
  right number of instructions, it keeps the program's operators and
  references and asks the solver only for new values of its constants, one
  instance of the program's semantics per sample.  The solver goal is the
  sequence `synth` of constraints together with the structural predicate
  `Admits`; the solver's answer and the specification's evaluation of the
  samples are parameters.
 */
module ConstantsStage {
  import opened Programs
  import opened Enums
  import opened VarNames
  import opened SynthRules
  import opened ConstantsSpec
  import opened Refinement
  import opened ConstSet

  /** `res == val` for every input of the sample, instance `inst`. */
  function InputAssigns(t: Tables, inst: string, sample: seq<int>): (r: seq<Constraint>)
    requires t.Valid() && |sample| == t.layout.nInputs
    ensures |r| == t.layout.nInputs
    ensures forall i :: 0 <= i < |r| ==> r[i] == Assign(ResVar(i, t.inTys[i], Some(inst)), sample[i])
  {
    seq(t.layout.nInputs, i requires 0 <= i < t.layout.nInputs => Assign(ResVar(i, t.inTys[i], Some(inst)), sample[i]))
  }

  /** `out == val` for every output value the specification gives the sample. */
  function OutputAssigns(t: Tables, inst: string, outs: seq<int>): (r: seq<Constraint>)
    requires t.Valid() && |outs| == t.layout.nOutputs
    ensures |r| == t.layout.nOutputs
    ensures forall k :: 0 <= k < |r| ==> r[k] == Assign(OpndVar(t.layout.OutInsn(), k, t.outTys[k], Some(inst)), outs[k])
  {
    seq(t.layout.nOutputs, k requires 0 <= k < t.layout.nOutputs =>
      Assign(OpndVar(t.layout.OutInsn(), k, t.outTys[k], Some(inst)), outs[k]))
  }

  /**
    The input/output constraints of one sample: with a deterministic and
    total specification its output values (`add_constr_io_sample_prg`),
    otherwise the specification's formula on the output variables
    (`add_constr_io_spec`).
   */
  function SampleConstraints(t: Tables, detTotal: bool, inst: string, sample: seq<int>, outs: seq<int>): seq<Constraint>
    requires t.Valid() && |sample| == t.layout.nInputs && (detTotal ==> |outs| == t.layout.nOutputs)
  {
    InputAssigns(t, inst, sample) +
    if detTotal then OutputAssigns(t, inst, outs) else [SpecHolds(OutVars(t, inst), sample)]
  }

  /** The samples are well formed: one value per input, and one per output where the specification is evaluated. */
  predicate SamplesFit(t: Tables, detTotal: bool, samples: seq<seq<int>>, outVals: seq<seq<int>>)
  {
    (forall i :: 0 <= i < |samples| ==> |samples[i]| == t.layout.nInputs) &&
    (detTotal ==> |outVals| == |samples| && forall i :: 0 <= i < |samples| ==> |outVals[i]| == t.layout.nOutputs)
  }

  /**
    What one sample adds under instance `inst`: the program's constraints,
    the sample's constraints, and the instance's constant dictionary; or
    the exception `write_constraints` raises.
   */
  function SampleBlock(t: Tables, p: Prg, detTotal: bool, inst: string, sample: seq<int>, outs: seq<int>)
    : Result<(seq<Constraint>, seq<Constraint>, map<(nat, nat), Var>)>
    requires t.Valid() && |sample| == t.layout.nInputs && (detTotal ==> |outs| == t.layout.nOutputs)
  {
    match Constraints(AsWritten, t, p, inst)
    case Err(e) => Err(e)
    case Ok(w) => Ok((w.0, SampleConstraints(t, detTotal, inst, sample, outs), w.1))
  }

  /** The specification's output values of sample s, where they are used. */
  function OutsOf(detTotal: bool, outVals: seq<seq<int>>, s: nat): seq<int>
    requires detTotal ==> s < |outVals|
  {
    if detTotal then outVals[s] else []
  }

  /** What sample s of a round whose first sample has instance `n0` adds. */
  function BlockOf(t: Tables, p: Prg, detTotal: bool, n0: nat, samples: seq<seq<int>>, outVals: seq<seq<int>>, s: nat)
    : Result<(seq<Constraint>, seq<Constraint>, map<(nat, nat), Var>)>
    requires t.Valid() && s < |samples| && SamplesFit(t, detTotal, samples, outVals)
  {
    SampleBlock(t, p, detTotal, NatToString(n0 + s), samples[s], OutsOf(detTotal, outVals, s))
  }

  /** `bs` holds the blocks of the samples of a round, sample i under instance `n0 + i`. */
  predicate BlocksFit(t: Tables, p: Prg, detTotal: bool, n0: nat, samples: seq<seq<int>>, outVals: seq<seq<int>>,
                      bs: seq<Result<(seq<Constraint>, seq<Constraint>, map<(nat, nat), Var>)>>)
    requires t.Valid() && SamplesFit(t, detTotal, samples, outVals)
  {
    |bs| == |samples| &&
    forall i {:trigger BlockOf(t, p, detTotal, n0, samples, outVals, i)} ::
      0 <= i < |samples| ==> bs[i] == BlockOf(t, p, detTotal, n0, samples, outVals, i)
  }

  /** The blocks of the samples of a round. */
  function Blocks(t: Tables, p: Prg, detTotal: bool, n0: nat, samples: seq<seq<int>>, outVals: seq<seq<int>>): (bs: seq<Result<(seq<Constraint>, seq<Constraint>, map<(nat, nat), Var>)>>)
    requires t.Valid() && SamplesFit(t, detTotal, samples, outVals)
    ensures BlocksFit(t, p, detTotal, n0, samples, outVals, bs)
  {
    seq(|samples|, i requires 0 <= i < |samples| => BlockOf(t, p, detTotal, n0, samples, outVals, i))
  }

  /**
    The goal and the constant dictionary after the blocks from `s` on,
    starting from `goal` and `cm`; or the first exception.
   */
  function RoundFrom(bs: seq<Result<(seq<Constraint>, seq<Constraint>, map<(nat, nat), Var>)>>, s: nat,
                     goal: seq<Constraint>, cm: map<(nat, nat), Var>)
    : Result<(seq<Constraint>, map<(nat, nat), Var>)>
    requires s <= |bs|
    decreases |bs| - s
  {
    if s == |bs| then Ok((goal, cm))
    else match bs[s]
      case Err(e) => Err(e)
      case Ok(b) => RoundFrom(bs, s + 1, goal + b.0 + b.1, b.2)
  }

  /**
    The rest of a round succeeds exactly when no sample is left or the
    program can be written under the first instance, since every instance
    fails or succeeds alike.
   */
  lemma {:induction false} RoundFromOk(t: Tables, p: Prg, detTotal: bool, n0: nat, samples: seq<seq<int>>,
                                       outVals: seq<seq<int>>, bs: seq<Result<(seq<Constraint>, seq<Constraint>, map<(nat, nat), Var>)>>,
                                       s: nat, goal: seq<Constraint>, cm: map<(nat, nat), Var>)
    requires t.Valid() && s <= |samples| && SamplesFit(t, detTotal, samples, outVals) && BlocksFit(t, p, detTotal, n0, samples, outVals, bs)
    ensures RoundFrom(bs, s, goal, cm).Ok? <==>
      s == |samples| || Constraints(AsWritten, t, p, NatToString(n0)).Ok?
    decreases |samples| - s
  {
    if s < |samples| {
      assert bs[s] == BlockOf(t, p, detTotal, n0, samples, outVals, s);
      ConstSlotsSameForAllInstances(AsWritten, t, p, NatToString(n0), NatToString(n0 + s));
      if bs[s].Ok? {
        var b := bs[s].value;
        RoundFromOk(t, p, detTotal, n0, samples, outVals, bs, s + 1, goal + b.0 + b.1, b.2);
      }
    }
  }

  /**
    The dictionary a round hands to `prg_from_changed_model` is the one of
    the first instance, which is every instance's; it is the initial one
    when no sample is left.
   */
  lemma {:induction false} RoundFromDict(t: Tables, p: Prg, detTotal: bool, n0: nat, samples: seq<seq<int>>,
                                         outVals: seq<seq<int>>, bs: seq<Result<(seq<Constraint>, seq<Constraint>, map<(nat, nat), Var>)>>,
                                         s: nat, goal: seq<Constraint>, cm: map<(nat, nat), Var>)
    requires t.Valid() && s <= |samples| && SamplesFit(t, detTotal, samples, outVals) && BlocksFit(t, p, detTotal, n0, samples, outVals, bs)
    requires RoundFrom(bs, s, goal, cm).Ok?
    ensures s == |samples| ==> RoundFrom(bs, s, goal, cm).value.1 == cm
    ensures s < |samples| ==>
      (Constraints(AsWritten, t, p, NatToString(n0)).Ok? &&
       RoundFrom(bs, s, goal, cm).value.1 == Constraints(AsWritten, t, p, NatToString(n0)).value.1)
    decreases |samples| - s
  {
    if s < |samples| {
      assert bs[s] == BlockOf(t, p, detTotal, n0, samples, outVals, s);
      ConstSlotsSameForAllInstances(AsWritten, t, p, NatToString(n0), NatToString(n0 + s));
      var b := bs[s].value;
      RoundFromDict(t, p, detTotal, n0, samples, outVals, bs, s + 1, goal + b.0 + b.1, b.2);
    }
  }

  /** A round only adds to the goal: what was asserted before stays, in front. */
  lemma {:induction false} RoundFromExtends(bs: seq<Result<(seq<Constraint>, seq<Constraint>, map<(nat, nat), Var>)>>, s: nat, goal: seq<Constraint>, cm: map<(nat, nat), Var>)
    requires s <= |bs| && RoundFrom(bs, s, goal, cm).Ok?
    ensures goal <= RoundFrom(bs, s, goal, cm).value.0
    decreases |bs| - s
  {
    if s < |bs| {
      var b := bs[s].value;
      var g := goal + b.0 + b.1;
      RoundFromExtends(bs, s + 1, g, b.2);
      assert g[..|goal|] == goal;
    }
  }

  /** Once a sample has been written, the rest of the round succeeds. */
  lemma RoundContinues(t: Tables, p: Prg, detTotal: bool, n0: nat, samples: seq<seq<int>>,
                       outVals: seq<seq<int>>, bs: seq<Result<(seq<Constraint>, seq<Constraint>, map<(nat, nat), Var>)>>, s: nat, goal: seq<Constraint>, cm: map<(nat, nat), Var>)
    requires t.Valid() && s < |samples| && SamplesFit(t, detTotal, samples, outVals) && BlocksFit(t, p, detTotal, n0, samples, outVals, bs)
    requires BlockOf(t, p, detTotal, n0, samples, outVals, s).Ok?
    ensures RoundFrom(bs, s + 1, goal, cm).Ok?
  {
    ConstSlotsSameForAllInstances(AsWritten, t, p, NatToString(n0), NatToString(n0 + s));
    RoundFromOk(t, p, detTotal, n0, samples, outVals, bs, s + 1, goal, cm);
  }

  /** A sample that cannot be written makes the whole round fail. */
  lemma RoundFailsWhole(t: Tables, p: Prg, detTotal: bool, n0: nat, samples: seq<seq<int>>,
                        outVals: seq<seq<int>>, bs: seq<Result<(seq<Constraint>, seq<Constraint>, map<(nat, nat), Var>)>>, s: nat, goal: seq<Constraint>)
    requires t.Valid() && s < |samples| && SamplesFit(t, detTotal, samples, outVals) && BlocksFit(t, p, detTotal, n0, samples, outVals, bs)
    requires BlockOf(t, p, detTotal, n0, samples, outVals, s).Err?
    ensures RoundFrom(bs, 0, goal, map[]).Err?
  {
    ConstSlotsSameForAllInstances(AsWritten, t, p, NatToString(n0), NatToString(n0 + s));
    RoundFromOk(t, p, detTotal, n0, samples, outVals, bs, 0, goal, map[]);
  }

  /**
    After a round with at least one sample, rebuilding the program from an
    answer that assigns every recorded constant variable succeeds when the
    program has a single output (with more, see OutputsSkipInsnRebuilt); the
    rebuilt program has the old operators and references and the answer's
    constants.
   */
  lemma RoundThenRefined(t: Tables, p: Prg, detTotal: bool, n0: nat, samples: seq<seq<int>>,
                         outVals: seq<seq<int>>, goal: seq<Constraint>, ans: Answer)
    requires t.Valid() && 0 < |samples| && SamplesFit(t, detTotal, samples, outVals)
    requires |p.insns| == t.layout.nInsns && t.layout.nOutputs == 1
    requires RoundFrom(Blocks(t, p, detTotal, n0, samples, outVals), 0, goal, map[]).Ok?
    requires var cm := RoundFrom(Blocks(t, p, detTotal, n0, samples, outVals), 0, goal, map[]).value.1;
      forall key :: key in cm ==> cm[key] in ans
    ensures var cm := RoundFrom(Blocks(t, p, detTotal, n0, samples, outVals), 0, goal, map[]).value.1;
      PrgRefinable(ans, cm, t.layout, p) && ChangedPrg(ans, cm, t.layout, p).Ok? &&
      PrgRefined(ans, cm, t.layout, p, ChangedPrg(ans, cm, t.layout, p).value)
  {
    var bs := Blocks(t, p, detTotal, n0, samples, outVals);
    RoundFromDict(t, p, detTotal, n0, samples, outVals, bs, 0, goal, map[]);
    WrittenThenRefined(AsWritten, t, p, NatToString(n0), ans);
  }

  /** The inner loop of `write_constraints` over the operands `args` of slot `slot`. */
  method OperandVarsOf(t: Tables, p: Prg, slot: nat, args: seq<Arg>, tys: seq<Sort>, inst: string, cm: map<(nat, nat), Var>)
    returns (r: Result<(seq<Var>, map<(nat, nat), Var>)>)
    requires t.Valid()
    ensures r == OperandVars(AsWritten, t, p, slot, args, tys, inst, cm, |args|)
  {
    var operands: seq<Var> := [];
    var constSet: map<(nat, nat), Var> := cm;
    for k := 0 to |args|
      invariant OperandVars(AsWritten, t, p, slot, args, tys, inst, cm, k) == Ok((operands, constSet))
    {
      var a := args[k];
      if a.isConst {
        if k >= |tys| {
          OperandVarsErrStays(AsWritten, t, p, slot, args, tys, inst, cm, k + 1, |args|);
          return Err("IndexError");
        }
        var cv := ConstVar(slot, k, tys[k], Some(FaInstance));
        operands := operands + [cv];
        constSet := constSet[(slot, k) := cv];
      } else {
        var ty := ProducerTypeAsWritten(t, p, a.value);
        if ty.Err? {
          OperandVarsErrStays(AsWritten, t, p, slot, args, tys, inst, cm, k + 1, |args|);
          return Err(ty.msg);
        }
        operands := operands + [ResVar(a.value, ty.value, Some(inst))];
      }
    }
    r := Ok((operands, constSet));
  }

  /**
    The instruction loop of `write_constraints`: one semantics constraint
    per slot from `n_inputs` up to `length - n_outputs`, instruction j of the
    program at slot `n_inputs + j`.
   */
  method InsnsConstraintsOf(t: Tables, p: Prg, inst: string) returns (r: Result<(seq<Constraint>, map<(nat, nat), Var>)>)
    requires t.Valid()
    ensures r == InsnsConstraints(AsWritten, t, p, inst, InsnLoopCount(AsWritten, t.layout))
  {
    var constraints: seq<Constraint> := [];
    var constSet: map<(nat, nat), Var> := map[];
    var n := if t.layout.Length() >= t.layout.nInputs + t.layout.nOutputs then t.layout.Length() - t.layout.nInputs - t.layout.nOutputs else 0;
    for j := 0 to n
      invariant InsnsConstraints(AsWritten, t, p, inst, j) == Ok((constraints, constSet))
    {
      if j >= |p.insns| {
        InsnsErrStays(AsWritten, t, p, inst, j + 1, n);
        return Err("IndexError");
      }
      var insn := p.insns[j];
      if insn.op !in t.opFromOrig {
        InsnsErrStays(AsWritten, t, p, inst, j + 1, n);
        return Err("KeyError");
      }
      var op := t.opFromOrig[insn.op];
      var ov := OperandVarsOf(t, p, t.layout.nInputs + j, insn.args, op.inTypes, inst, constSet);
      if ov.Err? {
        InsnsErrStays(AsWritten, t, p, inst, j + 1, n);
        return Err(ov.msg);
      }
      constraints := constraints + [InsnSem(op, ResVar(t.layout.nInputs + j, op.outType, Some(inst)), ov.value.0)];
      constSet := ov.value.1;
    }
    r := Ok((constraints, constSet));
  }

  /** `for operand, val in zip(operands, outs): constraints.append(operand == val)`. */
  method EqualitiesOf(a: seq<Var>, b: seq<Var>) returns (r: seq<Constraint>)
    ensures r == Equalities(a, b)
  {
    r := [];
    for k := 0 to Min(|a|, |b|)
      invariant |r| == k && forall i :: 0 <= i < k ==> r[i] == Equal(a[i], b[i])
    {
      r := r + [Equal(a[k], b[k])];
    }
  }

  /**
    The dictionaries of the constructor, `orig_ops`, `op_from_orig` and
    `op_freqs`, and the list of the stage's operators, with what the rest of
    the stage relies on and the entry each operator of the normalised
    collection contributes.
   */
  method StageTablesOf(userOps: OpCollection, spec: Spec, ctx: nat)
    returns (origOps: map<Func, Func>, opFromOrig: map<Func, Func>, opFreqs: map<Func, Freq>, ops: seq<Func>)
    requires userOps.Valid()
    requires userOps.OpList? ==> forall op :: op in userOps.items ==> op.ctx == spec.ctx
    requires userOps.OpDict? ==> forall i :: 0 <= i < |userOps.entries| ==> userOps.entries[i].0.ctx == spec.ctx
    ensures |ops| >= 1 && OpsTable(ops, origOps) && Inverse(origOps, opFromOrig) &&
      (forall op :: op in opFromOrig ==> opFromOrig[op] in ops) &&
      (forall op :: op in ops ==> op.ctx == ctx)
    ensures (forall op :: op in origOps ==> op in ops) && (forall op :: op in opFreqs ==> op in ops)
    ensures var es := Normalize(userOps);
      |ops| == |es| &&
      forall i :: 0 <= i < |es| ==>
        ops[i] == Translate(es[i].0, ctx) && origOps[ops[i]] == es[i].0 && opFromOrig[es[i].0] == ops[i] &&
        ops[i] in opFreqs && opFreqs[ops[i]] == es[i].1
  {
    var es := Normalize(userOps);
    var c0 := if userOps.Size() == 0 then MainCtx else spec.ctx;
    NormalizeContext(userOps, spec.ctx);
    StageTablesFacts(es, c0, ctx);
    origOps, opFromOrig, opFreqs, ops := OrigOps(es, ctx), OpFromOrig(es, ctx), OpFreqs(es, ctx), TranslateAll(KeysOf(es), ctx);
  }

  class SynthConstants {
    const origSpec: Spec
    const ctx: nat
    const nInsns: nat
    const opts: Options
    /** `orig_ops`: each translated operator to the user's operator. */
    const origOps: map<Func, Func>
    /** `op_from_orig`: each user operator to its translation. */
    const opFromOrig: map<Func, Func>
    /** `op_freqs`: each translated operator to its frequency. */
    const opFreqs: map<Func, Freq>
    /** `list(orig_ops.keys())`. */
    const ops: seq<Func>
    const layout: Layout
    /** The stage's sorts and layout, as `write_constraints` consults them. */
    function ConstraintTables(): Tables
    {
      Tables(layout, origSpec.inTypes, origSpec.outTypes, opFromOrig)
    }

    var nSamples: nat
    /** The program `set_prg` stored; `None` until it is called, when the attribute does not exist yet. */
    var prg: Option<Prg>
    var synth: seq<Constraint>

    /** The facts the constructor establishes and every member relies on. */
    predicate Valid()
    {
      |ops| >= 1 && OpsTable(ops, origOps) && Inverse(origOps, opFromOrig) &&
      (forall op :: op in opFromOrig ==> opFromOrig[op] in ops) &&
      (forall op :: op in ops ==> op.ctx == ctx) &&
      layout == LayoutFor(origSpec, nInsns, ops) &&
      ConstraintTables().Valid()
    }

    /**
      The operators are normalised (an empty collection becomes the dummy
      operator), moved to the stage's context, and the tables between the
      user's and the stage's operators are built.
     */
    constructor (spec: Spec, userOps: OpCollection, nInsns: nat, opts: Options, ctx: nat)
      requires userOps.Valid()
      requires userOps.OpList? ==> forall op :: op in userOps.items ==> op.ctx == spec.ctx
      requires userOps.OpDict? ==> forall i :: 0 <= i < |userOps.entries| ==> userOps.entries[i].0.ctx == spec.ctx
      ensures origSpec == spec && this.ctx == ctx && this.nInsns == nInsns && this.opts == opts
      ensures nSamples == 0 && prg == None && synth == []
      ensures Valid()
      ensures (forall op :: op in origOps ==> op in ops) && (forall op :: op in opFreqs ==> op in ops)
      ensures var es := Normalize(userOps);
        |ops| == |es| &&
        forall i :: 0 <= i < |es| ==>
          ops[i] == Translate(es[i].0, ctx) && origOps[ops[i]] == es[i].0 && opFromOrig[es[i].0] == ops[i] &&
          ops[i] in opFreqs && opFreqs[ops[i]] == es[i].1
    {
      var oo, ofo, freqs, tr := StageTablesOf(userOps, spec, ctx);
      origSpec := spec;
      this.ctx := ctx;
      this.nInsns := nInsns;
      this.opts := opts;
      origOps := oo;
      opFromOrig := ofo;
      opFreqs := freqs;
      ops := tr;
      layout := LayoutFor(spec, nInsns, tr);
      nSamples := 0;
      prg := None;
      synth := [];
    }

    /**
      The structural goal the constructor sets up, as emitted, on the
      structural model `m`, which the answer extends: the answer's constant
      variables without an instance are the model's constants.  `max_const`
      plays no part in this stage.
     */
    predicate Admits(m: Model, ans: Answer)
      requires Valid()
    {
      ConstantsStageRules(layout, ops, origSpec.inTypes, origSpec.outTypes, opts, m) &&
      AgreesInstanceless(layout, ops, m, ans, opts.constSet)
    }

    /** `set_prg(prg)`. */
    method SetPrg(p: Prg)
      modifies this`prg
      ensures prg == Some(p)
    {
      prg := Some(p);
    }

    /**
      `write_constraints(instance)` on the stored program: it adds the
      program's constraints under the instance to the goal and returns the
      constant dictionary, or raises before adding anything.
     */
    method WriteConstraints(inst: string) returns (r: Result<map<(nat, nat), Var>>)
      requires ConstraintTables().Valid() && prg.Some?
      modifies this`synth
      ensures var w := Constraints(AsWritten, ConstraintTables(), prg.value, inst);
        (w.Ok? ==> r == Ok(w.value.1) && synth == old(synth) + w.value.0) &&
        (w.Err? ==> r.Err? && synth == old(synth))
    {
      var p := prg.value;
      var ic := InsnsConstraintsOf(ConstraintTables(), p, inst);
      if ic.Err? {
        return Err(ic.msg);
      }
      var oc := OperandVarsOf(ConstraintTables(), p, ConstraintTables().layout.OutInsn(), p.outputs, ConstraintTables().outTys, inst, ic.value.1);
      if oc.Err? {
        return Err(oc.msg);
      }
      var eqs := EqualitiesOf(oc.value.0, OutVars(ConstraintTables(), inst));
      AddConstraints(ic.value.0 + eqs);
      r := Ok(oc.value.1);
    }

    /** `for c in constraints: self.synth.add(c)`. */
    method AddConstraints(cs: seq<Constraint>)
      modifies this`synth
      ensures synth == old(synth) + cs
    {
      for i := 0 to |cs|
        invariant synth == old(synth) + cs[..i]
      {
        synth := synth + [cs[i]];
      }
      assert cs[..|cs|] == cs;
    }

    /** `add_constr_io_sample_prg` or `add_constr_io_spec` for one sample. */
    method AddSampleConstraints(inst: string, sample: seq<int>, outs: seq<int>)
      requires ConstraintTables().Valid() && |sample| == layout.nInputs && (origSpec.detTotal ==> |outs| == layout.nOutputs)
      modifies this`synth
      ensures synth == old(synth) + SampleConstraints(ConstraintTables(), origSpec.detTotal, inst, sample, outs)
    {
      for i := 0 to |sample|
        invariant synth == old(synth) + InputAssigns(ConstraintTables(), inst, sample)[..i]
      {
        synth := synth + [Assign(ResVar(i, origSpec.inTypes[i], Some(inst)), sample[i])];
      }
      assert InputAssigns(ConstraintTables(), inst, sample)[..|sample|] == InputAssigns(ConstraintTables(), inst, sample);
      if origSpec.detTotal {
        ghost var mid := synth;
        for k := 0 to |outs|
          invariant synth == mid + OutputAssigns(ConstraintTables(), inst, outs)[..k]
        {
          synth := synth + [Assign(OpndVar(layout.OutInsn(), k, origSpec.outTypes[k], Some(inst)), outs[k])];
        }
        assert OutputAssigns(ConstraintTables(), inst, outs)[..|outs|] == OutputAssigns(ConstraintTables(), inst, outs);
      } else {
        synth := synth + [SpecHolds(OutVars(ConstraintTables(), inst), sample)];
      }
    }

    /** One sample of `synth_with_new_samples`: the program's constraints under the instance, then the sample's. */
    method AddSample(inst: string, sample: seq<int>, outs: seq<int>) returns (r: Result<map<(nat, nat), Var>>)
      requires ConstraintTables().Valid() && prg.Some? && |sample| == layout.nInputs && (origSpec.detTotal ==> |outs| == layout.nOutputs)
      modifies this`synth
      ensures var b := SampleBlock(ConstraintTables(), prg.value, origSpec.detTotal, inst, sample, outs);
        (b.Ok? ==> r == Ok(b.value.2) && synth == old(synth) + b.value.0 + b.value.1) &&
        (b.Err? ==> r.Err? && synth == old(synth))
    {
      r := WriteConstraints(inst);
      if r.Ok? {
        AddSampleConstraints(inst, sample, outs);
      }
    }

    /**
      The sample loop of `synth_with_new_samples`: one instance per sample,
      numbered from `n_samples` on, each with the program's constraints and
      the sample's.  It yields the constant dictionary of the last instance;
      an exception of `write_constraints` happens at the first sample, before
      anything changes.  `bs` are the samples' blocks.
     */
    method AddSamples(samples: seq<seq<int>>, outVals: seq<seq<int>>, ghost bs: seq<Result<(seq<Constraint>, seq<Constraint>, map<(nat, nat), Var>)>>)
      returns (r: Result<map<(nat, nat), Var>>)
      requires ConstraintTables().Valid() && prg.Some? && SamplesFit(ConstraintTables(), origSpec.detTotal, samples, outVals)
      requires BlocksFit(ConstraintTables(), prg.value, origSpec.detTotal, nSamples, samples, outVals, bs)
      modifies this`synth, this`nSamples
      ensures var w := RoundFrom(bs, 0, old(synth), map[]);
        && (w.Ok? ==> r == Ok(w.value.1) && synth == w.value.0 && nSamples == old(nSamples) + |samples|)
        && (w.Err? ==> r.Err? && synth == old(synth) && nSamples == old(nSamples))
    {
      var t := ConstraintTables();
      var p := prg.value;
      var detTotal := origSpec.detTotal;
      var n0 := nSamples;
      ghost var w := RoundFrom(bs, 0, synth, map[]);
      var constSet: map<(nat, nat), Var> := map[];
      for s := 0 to |samples|
        invariant nSamples == n0 + s && prg == Some(p)
        invariant s == 0 ==> synth == old(synth)
        invariant s > 0 ==> w.Ok?
        invariant w == RoundFrom(bs, s, synth, constSet)
      {
        var cs := AddSample(NatToString(nSamples), samples[s], OutsOf(origSpec.detTotal, outVals, s));
        assert bs[s] == BlockOf(t, p, detTotal, n0, samples, outVals, s);
        if cs.Err? {
          RoundFailsWhole(t, p, detTotal, n0, samples, outVals, bs, s, old(synth));
          return Err(cs.msg);
        }
        RoundContinues(t, p, detTotal, n0, samples, outVals, bs, s, synth, cs.value);
        constSet := cs.value;
        nSamples := nSamples + 1;
      }
      r := Ok(constSet);
    }

    /**
      `synth_with_new_samples(samples)`: the sample loop, then the stored
      program with the constants of the solver's answer, or None when the
      goal is unsatisfiable.  `outVals` are the specification's output values
      for the samples and `answer` the solver's answer: a model of the
      structural goal and the values of the named variables.
     */
    method SynthWithNewSamples(samples: seq<seq<int>>, outVals: seq<seq<int>>, answer: Option<(Model, Answer)>)
      returns (res: Result<Option<Prg>>)
      requires Valid() && prg.Some? && SamplesFit(ConstraintTables(), origSpec.detTotal, samples, outVals)
      requires answer.Some? ==> Admits(answer.value.0, answer.value.1)
      modifies this`synth, this`nSamples
      ensures var w := RoundFrom(Blocks(ConstraintTables(), prg.value, origSpec.detTotal, old(nSamples), samples, outVals), 0, old(synth), map[]);
        && (w.Ok? ==> synth == w.value.0 && nSamples == old(nSamples) + |samples|)
        && (w.Err? ==> res.Err? && synth == old(synth) && nSamples == old(nSamples))
        && (w.Ok? && answer.None? ==> res == Ok(None))
        && (w.Ok? && answer.Some? ==>
              var q := ChangedPrg(answer.value.1, w.value.1, layout, prg.value);
              res == if q.Ok? then Ok(Some(q.value)) else Err(q.msg))
    {
      ghost var bs := Blocks(ConstraintTables(), prg.value, origSpec.detTotal, nSamples, samples, outVals);
      var cm := AddSamples(samples, outVals, bs);
      if cm.Err? {
        return Err(cm.msg);
      }
      if answer.None? {
        return Ok(None);
      }
      var q := PrgFromChangedModel(answer.value.1, cm.value, prg.value);
      res := if q.Ok? then Ok(Some(q.value)) else Err(q.msg);
    }

    /** `prg_from_changed_model(m, const_set, old_prg)`. */
    method PrgFromChangedModel(ans: Answer, cm: map<(nat, nat), Var>, p0: Prg) returns (r: Result<Prg>)
      ensures r == ChangedPrg(ans, cm, layout, p0)
    {
      var insns: seq<Insn> := [];
      for j := 0 to |p0.insns|
        invariant ChangedInsns(ans, cm, layout.nInputs, p0.insns, j) == Ok(insns)
      {
        var args := ChangedArgsOf(ans, cm, layout.nInputs + j, p0.insns[j].args);
        if args.Err? {
          ChangedInsnsErrStays(ans, cm, layout.nInputs, p0.insns, j + 1, |p0.insns|);
          return Err(args.msg);
        }
        insns := insns + [Insn(p0.insns[j].op, args.value)];
      }
      var outs := ChangedArgsOf(ans, cm, layout.OutInsn(), p0.outputs);
      if outs.Err? {
        return Err(outs.msg);
      }
      r := Ok(Prg(insns, outs.value));
    }

    /** The operand loop of `prg_from_changed_model` for one slot. */
    method ChangedArgsOf(ans: Answer, cm: map<(nat, nat), Var>, slot: nat, args: seq<Arg>) returns (r: Result<seq<Arg>>)
      ensures r == ChangedArgs(ans, cm, slot, args, |args|)
    {
      var newArgs: seq<Arg> := [];
      for k := 0 to |args|
        invariant ChangedArgs(ans, cm, slot, args, k) == Ok(newArgs)
      {
        if args[k].isConst {
          if (slot, k) !in cm {
            ChangedArgsErrStays(ans, cm, slot, args, k + 1, |args|);
            return Err("KeyError");
          }
          if cm[(slot, k)] !in ans {
            ChangedArgsErrStays(ans, cm, slot, args, k + 1, |args|);
            return Err("AttributeError");
          }
          newArgs := newArgs + [Arg(true, ans[cm[(slot, k)]])];
        } else {
          newArgs := newArgs + [args[k]];
        }
      }
      r := Ok(newArgs);
    }
  }

  /**
    An answer admitted by the structural goal meets the `const_set`
    restriction on its constant variables without an instance; the
    constants the stage refines are those of instance `fa`, which the
    restriction does not reach (see ConstSetMissesRefinedAsWritten).
   */
  lemma AdmittedConstsInstanceless(s: SynthConstants, m: Model, ans: Answer)
    requires s.Valid() && s.Admits(m, ans)
    ensures ConstSetHolds(s.layout, s.ops, ans, None, s.opts.constSet)
  {
    ConstsFromSetIsInstanceless(s.layout, s.ops, m, ans, s.opts.constSet);
  }
}
