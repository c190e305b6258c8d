/**
  The `SynthN` synthesizer: the operator table and slot layout it builds at
  construction, the reading of a program off a solver model, and one round
  of synthesis with new samples.  The solver goal is the predicate
  `Admits`; the solver's answer is a parameter.
 */
module Synthesis {
  import opened Programs
  import opened Enums
  import opened SynthRules
  import opened ProgramShape

  /** `Func('id', spec.outputs[0])`: the identity on the first output's sort, in the specification's context. */
  function IdFunc(spec: Spec): (f: Func)
    requires |spec.outTypes| >= 1
    ensures f.Arity() == 1 && f.outType == spec.outTypes[0] && f.ctx == spec.ctx
  {
    Func("id", [spec.outTypes[0]], spec.outTypes[0], false, spec.ctx)
  }

  /**
    `{ op.translate(ctx): op for op in ops }` for operators of one context:
    every key is an operator of `ops` moved to `ctx`, and it maps back to the
    operator it came from.
   */
  lemma OrigOpsTable(all: seq<Func>, c0: nat, ctx: nat)
    requires forall op :: op in all ==> op.ctx == c0
    ensures var tr := TranslateAll(all, ctx);
      OpsTable(Dedup(tr), ZipMap(tr, all)) &&
      (forall op :: op in ZipMap(tr, all) ==> op in tr && ZipMap(tr, all)[op] == Translate(op, c0))
  {
    var tr := TranslateAll(all, ctx);
    var orig := ZipMap(tr, all);
    forall i | 0 <= i < |tr|
      ensures all[i] == Translate(tr[i], c0)
    {
      assert all[i] in all;
      TranslateBack(all[i], ctx);
    }
    ZipMapGraph(tr, all, op => Translate(op, c0));
    forall a, b | a in Dedup(tr) && b in Dedup(tr) && orig[a] == orig[b]
      ensures a == b
    {
      TranslateInjective(a, b, c0);
    }
  }

  /** Without an identity among the user's operators, the last operator is the identity. */
  lemma {:induction false} DedupLastNew<T>(s: seq<T>, x: T)
    requires x !in s
    ensures Dedup(s + [x]) == Dedup(s) + [x]
  {
    assert (s + [x])[..|s|] == s;
    assert x !in Dedup(s);
  }

  /** The operator table the constructor builds: non-empty, injective, every key in `ctx` mapping back to its original. */
  lemma NewOpsTable(spec: Spec, userOps: seq<Func>, ctx: nat)
    requires forall op :: op in userOps ==> op.ctx == spec.ctx
    requires |spec.outTypes| >= 1
    ensures var all := userOps + [IdFunc(spec)];
      var tr := TranslateAll(all, ctx);
      |Dedup(tr)| >= 1 && OpsTable(Dedup(tr), ZipMap(tr, all)) &&
      forall op :: op in Dedup(tr) ==> op.ctx == ctx && ZipMap(tr, all)[op] == Translate(op, spec.ctx)
  {
    var all := userOps + [IdFunc(spec)];
    var tr := TranslateAll(all, ctx);
    assert forall op :: op in all ==> op.ctx == spec.ctx;
    OrigOpsTable(all, spec.ctx, ctx);
    assert tr[|tr| - 1] in Dedup(tr);
    forall op | op in Dedup(tr)
      ensures op.ctx == ctx
    {
      var i :| 0 <= i < |tr| && tr[i] == op;
    }
  }

  /**
    The tables of a synthesizer: a non-empty, injective operator table in
    `ctx` whose last operator is `id`, every key mapping back to its
    original, and the slot layout for those operators.
   */
  predicate TablesFit(spec: Spec, ctx: nat, nInsns: nat, ops: seq<Func>, origOps: map<Func, Func>, id: Func, layout: Layout)
  {
    |ops| >= 1 && id == ops[|ops| - 1] &&
    |spec.outTypes| >= 1 &&
    OpsTable(ops, origOps) &&
    (forall op :: op in ops ==> op.ctx == ctx && origOps[op] == Translate(op, spec.ctx)) &&
    layout == LayoutFor(spec, nInsns, ops)
  }

  /** The tables the constructor builds make a valid synthesizer. */
  lemma NewTablesValid(s: SynthN, spec: Spec, userOps: seq<Func>)
    requires forall op :: op in userOps ==> op.ctx == spec.ctx
    requires |spec.outTypes| >= 1 && s.origSpec == spec
    requires s.ops == Dedup(TranslateAll(userOps + [IdFunc(spec)], s.ctx))
    requires s.origOps == ZipMap(TranslateAll(userOps + [IdFunc(spec)], s.ctx), userOps + [IdFunc(spec)])
    requires |s.ops| >= 1 && s.id == s.ops[|s.ops| - 1]
    requires s.layout == LayoutFor(spec, s.nInsns, s.ops)
    ensures s.Valid()
  {
    NewOpsTable(spec, userOps, s.ctx);
  }

  /** A non-empty list keeps at least one element. */
  lemma DedupNonEmpty<T>(s: seq<T>)
    requires |s| > 0
    ensures |Dedup(s)| > 0
  {
    assert s[0] in Dedup(s);
  }

  class SynthN {
    const origSpec: Spec
    const ctx: nat
    const nInsns: nat
    const opts: Options
    /** `orig_ops`: each operator of the synthesizer's context to the user's operator. */
    const origOps: map<Func, Func>
    /** `list(orig_ops.keys())`. */
    const ops: seq<Func>
    /** `ops[-1]`. */
    const id: Func
    const layout: Layout
    var nSamples: nat

    /** The facts the constructor establishes and every member relies on. */
    predicate Valid()
    {
      TablesFit(origSpec, ctx, nInsns, ops, origOps, id, layout)
    }

    constructor (spec: Spec, userOps: seq<Func>, nInsns: nat, opts: Options, ctx: nat)
      requires forall op :: op in userOps ==> op.ctx == spec.ctx
      requires |spec.outTypes| >= 1
      ensures origSpec == spec && this.ctx == ctx && this.nInsns == nInsns && this.opts == opts
      ensures origOps == ZipMap(TranslateAll(userOps + [IdFunc(spec)], ctx), userOps + [IdFunc(spec)])
      ensures ops == Dedup(TranslateAll(userOps + [IdFunc(spec)], ctx))
      ensures id == ops[|ops| - 1]
      ensures layout == LayoutFor(spec, nInsns, ops)
      ensures nSamples == 0
      ensures Valid()
    {
      var all := userOps + [IdFunc(spec)];
      var tr := TranslateAll(all, ctx);
      DedupNonEmpty(tr);
      var keys := Dedup(tr);
      origSpec := spec;
      this.ctx := ctx;
      this.nInsns := nInsns;
      this.opts := opts;
      origOps := ZipMap(tr, all);
      ops := keys;
      id := keys[|keys| - 1];
      layout := LayoutFor(spec, nInsns, keys);
      nSamples := 0;
      new;
      NewTablesValid(this, spec, userOps);
    }

    /** The solver goal after construction: every constraint of `add_constr_wfp`, `add_constr_ty` and `add_constr_opt`, as emitted. */
    predicate Admits(m: Model)
      requires Valid()
    {
      SynthNRules(layout, ops, origSpec.inTypes, origSpec.outTypes, opts, m)
    }

    /** The goal with the no-CSE and no-dead-code rules corrected. */
    predicate AdmitsCorrected(m: Model)
      requires Valid()
    {
      SynthNRulesCorrected(layout, ops, origSpec.inTypes, origSpec.outTypes, opts, m)
    }

    /** `prep_opnds(insn, tys)`: the operands of slot insn as the model gives them. */
    method PrepOpnds(m: Model, insn: nat, tys: seq<Sort>) returns (r: seq<Arg>)
      requires insn < layout.Length()
      ensures r == ArgsOf(m, insn, tys, layout.Arity(insn))
    {
      r := [];
      var n := Min(|tys|, layout.Arity(insn));
      for k := 0 to n
        invariant |r| == k
        invariant forall j :: 0 <= j < k ==> r[j] == ArgOf(m, insn, j, tys[j])
      {
        if m.isConst(insn, k) {
          r := r + [Arg(true, m.constVal(insn, k, tys[k]))];
        } else {
          r := r + [Arg(false, m.opnd(insn, k))];
        }
      }
    }

    /** `create_prg(model)`. */
    method CreatePrg(m: Model) returns (p: Prg)
      requires Valid() && OpsInRange(layout, ops, m)
      ensures p == ProgramOf(layout, ops, origOps, origSpec.outTypes, m)
    {
      ghost var want := ProgramOf(layout, ops, origOps, origSpec.outTypes, m);
      var insns: seq<Insn> := [];
      for insn := layout.nInputs to layout.OutInsn()
        invariant insns == want.insns[..insn - layout.nInputs]
      {
        var op := ops[m.op(insn)];
        var opnds := PrepOpnds(m, insn, op.inTypes);
        OpInsnSlots(layout, insn);
        assert Insn(origOps[op], opnds) == want.insns[insn - layout.nInputs];
        insns := insns + [Insn(origOps[op], opnds)];
      }
      var outputs := PrepOpnds(m, layout.OutInsn(), origSpec.outTypes);
      OpInsnSlots(layout, layout.OutInsn());
      p := Prg(insns, outputs);
    }

    /** What the constraints as emitted guarantee about a program read off a model of the goal. */
    predicate WellShaped(p: Prg)
      requires Valid()
    {
      var nIn := layout.nInputs;
      |p.insns| == nInsns && |p.outputs| == |origSpec.outTypes| &&
      PrgAcyclic(nIn, p) && ArgsMatchArity(p) &&
      PrgIdAtEnd(p, origOps[id]) && PrgConstIdFirst(p, origOps[id]) &&
      (opts.commutative ==> PrgCommutativeSorted(p)) &&
      (opts.constOpt ==> PrgConstOperands(p, Some(origOps[id]))) &&
      (|TypesOf(ops)| > 1 ==> PrgTyped(origSpec.inTypes, origSpec.outTypes, p)) &&
      (opts.constSet != {} ==> PrgConstsFrom(p, opts.constSet)) &&
      (opts.maxConst.Some? ==> InsnConstCount(p.insns) <= opts.maxConst.value)
    }

    /**
      What the no-dead-code and no-CSE options intend: no unused instruction
      and no repeated one.  Only the corrected rules deliver it.
     */
    predicate NoWaste(p: Prg)
      requires Valid()
    {
      (opts.noDeadCode ==> PrgNoDeadCode(layout.nInputs, p)) &&
      (opts.noCse ==> PrgNoDuplicates(p))
    }

    /**
      One synthesis round: one solver instance per sample, then the program
      of the solver's model, or None when the goal is unsatisfiable.
     */
    method SynthWithNewSamples(samples: seq<seq<int>>, answer: Option<Model>) returns (prg: Option<Prg>)
      requires Valid()
      requires answer.Some? ==> Admits(answer.value)
      modifies this
      ensures nSamples == old(nSamples) + |samples|
      ensures answer.None? ==> prg.None?
      ensures answer.Some? ==> prg == Some(ProgramOf(layout, ops, origOps, origSpec.outTypes, answer.value))
      ensures prg.Some? ==> WellShaped(prg.value)
    {
      for s := 0 to |samples|
        invariant nSamples == old(nSamples) + s
      {
        nSamples := nSamples + 1;
      }
      if answer.Some? {
        var p := CreatePrg(answer.value);
        AdmittedIsWellShaped(this, answer.value);
        prg := Some(p);
      } else {
        prg := None;
      }
    }
  }

  lemma AdmittedStructure(s: SynthN, m: Model)
    requires s.Valid() && OpsInRange(s.layout, s.ops, m)
    requires Acyclic(s.layout, m) && IdLast(s.layout, m, |s.ops| - 1) && OnlyFirstIdConst(s.layout, m, |s.ops| - 1)
    ensures var p := ProgramOf(s.layout, s.ops, s.origOps, s.origSpec.outTypes, m);
      PrgAcyclic(s.layout.nInputs, p) && ArgsMatchArity(p) &&
      PrgIdAtEnd(p, s.origOps[s.id]) && PrgConstIdFirst(p, s.origOps[s.id])
  {
    var l, ops, orig, outTys := s.layout, s.ops, s.origOps, s.origSpec.outTypes;
    ProgramOfAcyclic(l, ops, orig, outTys, m);
    assert s.id == ops[|ops| - 1];
    ProgramOfIdAtEnd(l, ops, orig, outTys, m);
    ProgramOfConstIdFirst(l, ops, orig, outTys, m);
  }

  /**
    The corrected no-dead-code and no-CSE rules give a program without
    unused and without repeated instructions; the rules as emitted do not
    (see NoDeadCodeLetsDeadInsnThrough and NoCseLetsDuplicatesThrough).
   */
  lemma AdmittedNoWaste(s: SynthN, m: Model)
    requires s.Valid() && OpsInRange(s.layout, s.ops, m)
    requires s.opts.noDeadCode ==> NoDeadCode(s.layout, s.ops, m)
    requires s.opts.noCse ==> NoCse(s.layout, s.ops, m)
    ensures s.NoWaste(ProgramOf(s.layout, s.ops, s.origOps, s.origSpec.outTypes, m))
  {
    var l, ops, orig, outTys := s.layout, s.ops, s.origOps, s.origSpec.outTypes;
    if s.opts.noDeadCode {
      ProgramOfNoDeadCode(l, ops, orig, outTys, m);
    }
    if s.opts.noCse {
      ProgramOfNoDuplicates(l, ops, orig, outTys, m);
    }
  }

  lemma AdmittedOperands(s: SynthN, m: Model)
    requires s.Valid() && OpsInRange(s.layout, s.ops, m) && Acyclic(s.layout, m)
    requires s.opts.commutative ==> CommutativeSorted(s.layout, s.ops, m)
    requires s.opts.constOpt ==> ConstOperands(s.layout, s.ops, m, Some(s.id))
    requires TypeRules(s.layout, s.ops, s.origSpec.inTypes, s.origSpec.outTypes, m)
    ensures var p := ProgramOf(s.layout, s.ops, s.origOps, s.origSpec.outTypes, m);
      (s.opts.commutative ==> PrgCommutativeSorted(p)) &&
      (s.opts.constOpt ==> PrgConstOperands(p, Some(s.origOps[s.id]))) &&
      (|TypesOf(s.ops)| > 1 ==> PrgTyped(s.origSpec.inTypes, s.origSpec.outTypes, p))
  {
    var l, ops, orig, outTys := s.layout, s.ops, s.origOps, s.origSpec.outTypes;
    if s.opts.commutative {
      ProgramOfCommutativeSorted(l, ops, orig, outTys, m);
    }
    if s.opts.constOpt {
      ProgramOfConstOperands(l, ops, orig, outTys, m, Some(s.id));
    }
    if |TypesOf(ops)| > 1 {
      ProgramOfTyped(l, ops, orig, s.origSpec.inTypes, outTys, m);
    }
  }

  lemma AdmittedConstants(s: SynthN, m: Model)
    requires s.Valid() && OpsInRange(s.layout, s.ops, m)
    requires ConstsFromSet(s.layout, s.ops, m, s.opts.constSet)
    requires WithinConstLimit(s.layout, m, s.opts.maxConst)
    ensures var p := ProgramOf(s.layout, s.ops, s.origOps, s.origSpec.outTypes, m);
      (s.opts.constSet != {} ==> PrgConstsFrom(p, s.opts.constSet)) &&
      (s.opts.maxConst.Some? ==> InsnConstCount(p.insns) <= s.opts.maxConst.value)
  {
    var l, ops, orig, outTys := s.layout, s.ops, s.origOps, s.origSpec.outTypes;
    if s.opts.constSet != {} {
      ProgramOfConstsFrom(l, ops, orig, outTys, m, s.opts.constSet);
    }
    if s.opts.maxConst.Some? {
      ProgramOfConstLimit(l, ops, orig, outTys, m, s.opts.maxConst.value);
    }
  }

  /** Every program read off a model of the goal as emitted has the shape the structural rules promise. */
  lemma AdmittedIsWellShaped(s: SynthN, m: Model)
    requires s.Valid() && s.Admits(m)
    ensures s.WellShaped(ProgramOf(s.layout, s.ops, s.origOps, s.origSpec.outTypes, m))
  {
    AdmittedStructure(s, m);
    AdmittedOperands(s, m);
    AdmittedConstants(s, m);
  }

  /** A model of the corrected goal gives a well-shaped program without waste. */
  lemma CorrectedIsWellShaped(s: SynthN, m: Model)
    requires s.Valid() && s.AdmitsCorrected(m)
    ensures var p := ProgramOf(s.layout, s.ops, s.origOps, s.origSpec.outTypes, m);
      s.WellShaped(p) && s.NoWaste(p)
  {
    AdmittedStructure(s, m);
    AdmittedNoWaste(s, m);
    AdmittedOperands(s, m);
    AdmittedConstants(s, m);
  }

  /**
    When the user's operators do not already contain the identity, `id` is
    the identity added at construction, and its original is that identity.
   */
  lemma IdIsAddedIdentity(s: SynthN, spec: Spec, userOps: seq<Func>)
    requires |spec.outTypes| >= 1 && s.origSpec == spec
    requires forall op :: op in userOps ==> op.ctx == spec.ctx
    requires s.ops == Dedup(TranslateAll(userOps + [IdFunc(spec)], s.ctx))
    requires s.origOps == ZipMap(TranslateAll(userOps + [IdFunc(spec)], s.ctx), userOps + [IdFunc(spec)])
    requires s.id == s.ops[|s.ops| - 1]
    requires IdFunc(spec) !in userOps
    ensures s.id == Translate(IdFunc(spec), s.ctx)
    ensures s.origOps[s.id] == IdFunc(spec)
  {
    var all := userOps + [IdFunc(spec)];
    var tr := TranslateAll(all, s.ctx);
    var x := Translate(IdFunc(spec), s.ctx);
    TranslateAllSnoc(userOps, IdFunc(spec), s.ctx);
    assert x !in TranslateAll(userOps, s.ctx) by {
      forall i | 0 <= i < |userOps|
        ensures TranslateAll(userOps, s.ctx)[i] != x
      {
        assert userOps[i] in userOps;
        TranslateInjective(userOps[i], IdFunc(spec), s.ctx);
      }
    }
    DedupLastNew(TranslateAll(userOps, s.ctx), x);
  }
}
