/**
  `prg_from_changed_model`: the stored program with every constant replaced
  by the value the solver's answer gives the constant variable that
  `write_constraints` recorded for its slot.  The answer assigns values to
  solver constants; it is indexed here by `Var`, which for the constant
  variables of one instance is the same as indexing by name and sort
  (`VarNames.ConstVarInjective`).
 */
module Refinement {
  import opened Programs
  import opened VarNames
  import opened ConstantsSpec

  /** A satisfying assignment, as far as it is read: a value per solver constant. */
  type Answer = map<Var, int>

  /** Operand k of slot `slot` can be rebuilt: a reference always, a constant when its variable is recorded and assigned. */
  predicate Refinable(ans: Answer, cm: map<(nat, nat), Var>, slot: nat, k: nat, a: Arg)
  {
    !a.isConst || ((slot, k) in cm && cm[(slot, k)] in ans)
  }

  /**
    One rebuilt operand: a reference is kept, a constant takes the answer's
    value.  A slot without an entry fails with `KeyError`; a variable the
    answer does not assign evaluates to None, whose `translate` fails.
   */
  function RefinedArg(ans: Answer, cm: map<(nat, nat), Var>, slot: nat, k: nat, a: Arg): (r: Result<Arg>)
    ensures r.Ok? <==> Refinable(ans, cm, slot, k, a)
    ensures r.Ok? ==> r.value.isConst == a.isConst
    ensures r.Ok? && !a.isConst ==> r.value == a
    ensures r.Ok? && a.isConst ==> r.value.value == ans[cm[(slot, k)]]
  {
    if !a.isConst then Ok(a)
    else if (slot, k) !in cm then Err("KeyError")
    else if cm[(slot, k)] !in ans then Err("AttributeError")
    else Ok(Arg(true, ans[cm[(slot, k)]]))
  }

  /** The first n operands of slot `slot`, rebuilt in order; the first failure ends the loop. */
  function ChangedArgs(ans: Answer, cm: map<(nat, nat), Var>, slot: nat, args: seq<Arg>, n: nat): (r: Result<seq<Arg>>)
    requires n <= |args|
    ensures r.Ok? ==> |r.value| == n
  {
    if n == 0 then Ok([])
    else match ChangedArgs(ans, cm, slot, args, n - 1)
      case Err(e) => Err(e)
      case Ok(prefix) =>
        match RefinedArg(ans, cm, slot, n - 1, args[n - 1])
        case Err(e) => Err(e)
        case Ok(a) => Ok(prefix + [a])
  }

  /** The first n instructions, instruction j at slot nIn + j, each with its operator kept. */
  function ChangedInsns(ans: Answer, cm: map<(nat, nat), Var>, nIn: nat, insns: seq<Insn>, n: nat): (r: Result<seq<Insn>>)
    requires n <= |insns|
    ensures r.Ok? ==> |r.value| == n
  {
    if n == 0 then Ok([])
    else match ChangedInsns(ans, cm, nIn, insns, n - 1)
      case Err(e) => Err(e)
      case Ok(prefix) =>
        match ChangedArgs(ans, cm, nIn + n - 1, insns[n - 1].args, |insns[n - 1].args|)
        case Err(e) => Err(e)
        case Ok(args) => Ok(prefix + [Insn(insns[n - 1].op, args)])
  }

  /** `prg_from_changed_model(m, const_set, old_prg)`. */
  function ChangedPrg(ans: Answer, cm: map<(nat, nat), Var>, l: Layout, p0: Prg): Result<Prg>
  {
    match ChangedInsns(ans, cm, l.nInputs, p0.insns, |p0.insns|)
    case Err(e) => Err(e)
    case Ok(insns) =>
      match ChangedArgs(ans, cm, l.OutInsn(), p0.outputs, |p0.outputs|)
      case Err(e) => Err(e)
      case Ok(outs) => Ok(Prg(insns, outs))
  }

  /** Every operand of the first n of `args` can be rebuilt. */
  predicate ArgsRefinable(ans: Answer, cm: map<(nat, nat), Var>, slot: nat, args: seq<Arg>, n: nat)
    requires n <= |args|
  {
    forall k :: 0 <= k < n ==> Refinable(ans, cm, slot, k, args[k])
  }

  /** `args2` is `args` with every constant replaced by the answer's value for its slot. */
  predicate ArgsRefined(ans: Answer, cm: map<(nat, nat), Var>, slot: nat, args: seq<Arg>, args2: seq<Arg>)
    requires ArgsRefinable(ans, cm, slot, args, |args|)
  {
    |args2| == |args| &&
    forall k :: 0 <= k < |args| ==>
      args2[k] == if args[k].isConst then Arg(true, ans[cm[(slot, k)]]) else args[k]
  }

  lemma {:induction false} ChangedArgsFacts(ans: Answer, cm: map<(nat, nat), Var>, slot: nat, args: seq<Arg>, n: nat)
    requires n <= |args|
    ensures ChangedArgs(ans, cm, slot, args, n).Ok? <==> ArgsRefinable(ans, cm, slot, args, n)
    ensures ChangedArgs(ans, cm, slot, args, n).Ok? ==>
      forall k :: 0 <= k < n ==> ChangedArgs(ans, cm, slot, args, n).value[k] == RefinedArg(ans, cm, slot, k, args[k]).value
  {
    if n > 0 {
      ChangedArgsFacts(ans, cm, slot, args, n - 1);
    }
  }

  /** The operands of a slot are rebuilt exactly when each can be, into the operands with the answer's constants. */
  lemma ChangedArgsAll(ans: Answer, cm: map<(nat, nat), Var>, slot: nat, args: seq<Arg>)
    ensures ChangedArgs(ans, cm, slot, args, |args|).Ok? <==> ArgsRefinable(ans, cm, slot, args, |args|)
    ensures ChangedArgs(ans, cm, slot, args, |args|).Ok? ==>
      ArgsRefined(ans, cm, slot, args, ChangedArgs(ans, cm, slot, args, |args|).value)
  {
    ChangedArgsFacts(ans, cm, slot, args, |args|);
  }

  /** Every constant of the first n instructions can be rebuilt. */
  predicate InsnsRefinable(ans: Answer, cm: map<(nat, nat), Var>, nIn: nat, insns: seq<Insn>, n: nat)
    requires n <= |insns|
  {
    forall j :: 0 <= j < n ==> ArgsRefinable(ans, cm, nIn + j, insns[j].args, |insns[j].args|)
  }

  lemma {:induction false} ChangedInsnsOk(ans: Answer, cm: map<(nat, nat), Var>, nIn: nat, insns: seq<Insn>, n: nat)
    requires n <= |insns|
    ensures ChangedInsns(ans, cm, nIn, insns, n).Ok? <==> InsnsRefinable(ans, cm, nIn, insns, n)
  {
    if n > 0 {
      ChangedInsnsOk(ans, cm, nIn, insns, n - 1);
      ChangedArgsAll(ans, cm, nIn + n - 1, insns[n - 1].args);
      assert InsnsRefinable(ans, cm, nIn, insns, n) <==>
        InsnsRefinable(ans, cm, nIn, insns, n - 1) &&
        ArgsRefinable(ans, cm, nIn + n - 1, insns[n - 1].args, |insns[n - 1].args|);
    }
  }

  /** Instruction j of the rebuilt program keeps its operator and gets its rebuilt operands. */
  predicate InsnRefined(ans: Answer, cm: map<(nat, nat), Var>, nIn: nat, insns: seq<Insn>, j: nat, ins: Insn)
    requires j < |insns| && ArgsRefinable(ans, cm, nIn + j, insns[j].args, |insns[j].args|)
  {
    ins.op == insns[j].op && ArgsRefined(ans, cm, nIn + j, insns[j].args, ins.args)
  }

  lemma {:induction false} ChangedInsnsShape(ans: Answer, cm: map<(nat, nat), Var>, nIn: nat, insns: seq<Insn>, n: nat)
    requires n <= |insns| && ChangedInsns(ans, cm, nIn, insns, n).Ok?
    ensures InsnsRefinable(ans, cm, nIn, insns, n)
    ensures forall j :: 0 <= j < n ==> InsnRefined(ans, cm, nIn, insns, j, ChangedInsns(ans, cm, nIn, insns, n).value[j])
  {
    ChangedInsnsOk(ans, cm, nIn, insns, n);
    if n > 0 {
      ChangedInsnsShape(ans, cm, nIn, insns, n - 1);
      ChangedArgsAll(ans, cm, nIn + n - 1, insns[n - 1].args);
      var r0 := ChangedInsns(ans, cm, nIn, insns, n - 1).value;
      var r := ChangedInsns(ans, cm, nIn, insns, n).value;
      assert r == r0 + [Insn(insns[n - 1].op, ChangedArgs(ans, cm, nIn + n - 1, insns[n - 1].args, |insns[n - 1].args|).value)];
      forall j | 0 <= j < n
        ensures InsnRefined(ans, cm, nIn, insns, j, r[j])
      {
        if j < n - 1 {
          assert r[j] == r0[j];
        }
      }
    }
  }

  /** Every constant of `p0` can be rebuilt: instruction j at slot nIn + j, the outputs at the output slot. */
  predicate PrgRefinable(ans: Answer, cm: map<(nat, nat), Var>, l: Layout, p0: Prg)
  {
    InsnsRefinable(ans, cm, l.nInputs, p0.insns, |p0.insns|) &&
    ArgsRefinable(ans, cm, l.OutInsn(), p0.outputs, |p0.outputs|)
  }

  /** `q` is `p0` with the same operators and references and the answer's value for every constant. */
  predicate PrgRefined(ans: Answer, cm: map<(nat, nat), Var>, l: Layout, p0: Prg, q: Prg)
    requires PrgRefinable(ans, cm, l, p0)
  {
    |q.insns| == |p0.insns| &&
    (forall j :: 0 <= j < |p0.insns| ==>
       InsnRefined(ans, cm, l.nInputs, p0.insns, j, q.insns[j])) &&
    ArgsRefined(ans, cm, l.OutInsn(), p0.outputs, q.outputs)
  }

  /**
    `prg_from_changed_model` succeeds exactly when every constant of the old
    program has a recorded variable that the answer assigns, and then keeps
    the program's shape and replaces exactly its constants.
   */
  lemma ChangedPrgFacts(ans: Answer, cm: map<(nat, nat), Var>, l: Layout, p0: Prg)
    ensures ChangedPrg(ans, cm, l, p0).Ok? <==> PrgRefinable(ans, cm, l, p0)
    ensures ChangedPrg(ans, cm, l, p0).Ok? ==> PrgRefined(ans, cm, l, p0, ChangedPrg(ans, cm, l, p0).value)
  {
    ChangedInsnsOk(ans, cm, l.nInputs, p0.insns, |p0.insns|);
    if ChangedInsns(ans, cm, l.nInputs, p0.insns, |p0.insns|).Ok? {
      ChangedInsnsShape(ans, cm, l.nInputs, p0.insns, |p0.insns|);
    }
    ChangedArgsAll(ans, cm, l.OutInsn(), p0.outputs);
  }

  /** An answer that gives every constant its old value rebuilds the old program. */
  lemma ChangedPrgIdentity(ans: Answer, cm: map<(nat, nat), Var>, l: Layout, p0: Prg)
    requires PrgRefinable(ans, cm, l, p0)
    requires forall j, k :: 0 <= j < |p0.insns| && 0 <= k < |p0.insns[j].args| && p0.insns[j].args[k].isConst ==>
      ans[cm[(l.nInputs + j, k)]] == p0.insns[j].args[k].value
    requires forall k :: 0 <= k < |p0.outputs| && p0.outputs[k].isConst ==>
      ans[cm[(l.OutInsn(), k)]] == p0.outputs[k].value
    ensures ChangedPrg(ans, cm, l, p0) == Ok(p0)
  {
    ChangedPrgFacts(ans, cm, l, p0);
    var q := ChangedPrg(ans, cm, l, p0).value;
    forall j | 0 <= j < |p0.insns|
      ensures q.insns[j] == p0.insns[j]
    {
      assert q.insns[j].args == p0.insns[j].args;
    }
    assert q.insns == p0.insns;
    assert q.outputs == p0.outputs;
  }

  /**
    Every constant of the program has an entry in `cm`, the `fa` constant
    variable of its slot, named after the operand sort of its operator or
    after the output sort.
   */
  predicate ConstsNamed(t: Tables, p: Prg, cm: map<(nat, nat), Var>)
    requires t.Valid()
  {
    var l := t.layout;
    (forall j, k :: 0 <= j < |p.insns| && 0 <= k < |p.insns[j].args| && p.insns[j].args[k].isConst ==>
       (l.nInputs + j, k) in cm && p.insns[j].op in t.opFromOrig && k < |t.opFromOrig[p.insns[j].op].inTypes| &&
       cm[(l.nInputs + j, k)] == ConstVar(l.nInputs + j, k, t.opFromOrig[p.insns[j].op].inTypes[k], Some(FaInstance))) &&
    (forall k :: 0 <= k < |p.outputs| && p.outputs[k].isConst ==>
       (l.OutInsn(), k) in cm && k < |t.outTys| && cm[(l.OutInsn(), k)] == ConstVar(l.OutInsn(), k, t.outTys[k], Some(FaInstance)))
  }

  /** A dictionary of every instruction's and output's constants names every constant of a program of the stage's size. */
  lemma SlotDictNamesAllConsts(t: Tables, p: Prg, cm: map<(nat, nat), Var>)
    requires t.Valid() && |p.insns| == t.layout.nInsns && SlotDict(t, p, t.layout.nInsns, cm)
    ensures ConstsNamed(t, p, cm)
  {
    var l := t.layout;
    forall j, k | 0 <= j < |p.insns| && 0 <= k < |p.insns[j].args| && p.insns[j].args[k].isConst
      ensures (l.nInputs + j, k) in cm && p.insns[j].op in t.opFromOrig && k < |t.opFromOrig[p.insns[j].op].inTypes| &&
        cm[(l.nInputs + j, k)] == ConstVar(l.nInputs + j, k, t.opFromOrig[p.insns[j].op].inTypes[k], Some(FaInstance))
    {
      var key := (l.nInputs + j, k);
      assert InsnConstSlot(l, p, l.nInsns, key);
      assert !OutConstSlot(l, p, key);
      assert InsnSlotVar(t, p, key, cm[key]);
      assert key.0 - l.nInputs == j;
    }
    forall k | 0 <= k < |p.outputs| && p.outputs[k].isConst
      ensures (l.OutInsn(), k) in cm && k < |t.outTys| && cm[(l.OutInsn(), k)] == ConstVar(l.OutInsn(), k, t.outTys[k], Some(FaInstance))
    {
      assert OutConstSlot(l, p, (l.OutInsn(), k));
    }
  }

  /**
    `write_constraints` records every constant of a program of the stage's
    size when its instruction loop visits every instruction: always once
    corrected, and as written exactly when there is a single output.
   */
  lemma WrittenNamesAllConsts(v: Variant, t: Tables, p: Prg, inst: string)
    requires t.Valid() && |p.insns| == t.layout.nInsns && Constraints(v, t, p, inst).Ok?
    requires v == Corrected || t.layout.nOutputs == 1
    ensures ConstsNamed(t, p, Constraints(v, t, p, inst).value.1)
  {
    ConstraintsSlots(v, t, p, inst);
    SlotDictNamesAllConsts(t, p, Constraints(v, t, p, inst).value.1);
  }

  /**
    Writing the constraints of a program and rebuilding it from an answer
    that assigns every recorded constant variable succeeds whenever the
    instruction loop visits every instruction (always once corrected, with
    a single output as written); the rebuilt program has the old operators
    and references and the answer's constants.
   */
  lemma WrittenThenRefined(v: Variant, t: Tables, p: Prg, inst: string, ans: Answer)
    requires t.Valid() && |p.insns| == t.layout.nInsns && Constraints(v, t, p, inst).Ok?
    requires v == Corrected || t.layout.nOutputs == 1
    requires forall key :: key in Constraints(v, t, p, inst).value.1 ==>
      Constraints(v, t, p, inst).value.1[key] in ans
    ensures var l, cm := t.layout, Constraints(v, t, p, inst).value.1;
      ConstsNamed(t, p, cm) && PrgRefinable(ans, cm, l, p) && ChangedPrg(ans, cm, l, p).Ok? &&
      PrgRefined(ans, cm, l, p, ChangedPrg(ans, cm, l, p).value)
  {
    var l, cm := t.layout, Constraints(v, t, p, inst).value.1;
    WrittenNamesAllConsts(v, t, p, inst);
    ChangedPrgFacts(ans, cm, l, p);
  }

  /** Once an operand cannot be rebuilt, the operand loop fails with the same exception. */
  lemma {:induction false} ChangedArgsErrStays(ans: Answer, cm: map<(nat, nat), Var>, slot: nat, args: seq<Arg>, n: nat, m: nat)
    requires n <= m <= |args| && ChangedArgs(ans, cm, slot, args, n).Err?
    ensures ChangedArgs(ans, cm, slot, args, m) == ChangedArgs(ans, cm, slot, args, n)
  {
    if m > n {
      ChangedArgsErrStays(ans, cm, slot, args, n, m - 1);
    }
  }

  /** Once an instruction cannot be rebuilt, the instruction loop fails with the same exception. */
  lemma {:induction false} ChangedInsnsErrStays(ans: Answer, cm: map<(nat, nat), Var>, nIn: nat, insns: seq<Insn>, n: nat, m: nat)
    requires n <= m <= |insns| && ChangedInsns(ans, cm, nIn, insns, n).Err?
    ensures ChangedInsns(ans, cm, nIn, insns, m) == ChangedInsns(ans, cm, nIn, insns, n)
  {
    if m > n {
      ChangedInsnsErrStays(ans, cm, nIn, insns, n, m - 1);
    }
  }
}
