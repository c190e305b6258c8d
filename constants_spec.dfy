/**
  The book keeping of the constants stage, `SynthConstants`, as functions:
  how the operator collection is normalised into the operator tables, which
  constraints `write_constraints` emits for a stored program and which
  constant variables it records per (slot, operand) pair, and how
  `prg_from_changed_model` puts the values of those variables back into the
  program.
 */
module ConstantsSpec {
  import opened Programs
  import opened Enums
  import opened VarNames
  import opened SynthRules

  // ---------------------------------------------------------------------------
  // Operator normalisation

  /** `OpFreq`: how often an operator may be used; `Max` is `OpFreq.MAX`. */
  datatype Freq = Count(n: nat) | Max

  /** The operators handed to the stage: a list (or set), or a dictionary from operator to frequency. */
  datatype OpCollection = OpList(items: seq<Func>) | OpDict(entries: seq<(Func, Freq)>)
  {
    function Size(): nat
    {
      if OpList? then |items| else |entries|
    }

    /** A dictionary holds every operator once. */
    predicate Valid()
    {
      OpDict? ==> Distinct(KeysOf(entries))
    }
  }

  function KeysOf(es: seq<(Func, Freq)>): (r: seq<Func>)
    ensures |r| == |es| && forall i :: 0 <= i < |es| ==> r[i] == es[i].0
  {
    seq(|es|, i requires 0 <= i < |es| => es[i].0)
  }

  function FreqsOf(es: seq<(Func, Freq)>): (r: seq<Freq>)
    ensures |r| == |es| && forall i :: 0 <= i < |es| ==> r[i] == es[i].1
  {
    seq(|es|, i requires 0 <= i < |es| => es[i].1)
  }

  const IntSort: Sort := Sort("Int")

  /** `Func('dummy', Int('v') + 1)`: one integer operand, an integer result, built in the main context. */
  const DummyOp: Func := Func("dummy", [IntSort], IntSort, false, MainCtx)

  /**
    The operator dictionary the constructor works with: an empty collection
    becomes the dummy operator with frequency 0, a list maps each of its
    operators (first occurrence first) to `OpFreq.MAX`, and a dictionary
    stays as it is.
   */
  function Normalize(c: OpCollection): (r: seq<(Func, Freq)>)
    requires c.Valid()
    ensures |r| >= 1 && Distinct(KeysOf(r))
    ensures c.Size() == 0 ==> r == [(DummyOp, Count(0))]
    ensures c.OpList? && c.Size() > 0 ==>
      (forall op :: op in KeysOf(r) <==> op in c.items) && forall i :: 0 <= i < |r| ==> r[i].1 == Max
    ensures c.OpDict? && c.Size() > 0 ==> r == c.entries
  {
    if c.Size() == 0 then [(DummyOp, Count(0))]
    else if c.OpList? then
      var ks := Dedup(c.items);
      assert c.items[0] in ks;
      var r := seq(|ks|, i requires 0 <= i < |ks| => (ks[i], Max));
      assert KeysOf(r) == ks;
      r
    else c.entries
  }

  /** The operators of the normalised dictionary all live in one context: the dummy's, or the user's. */
  lemma NormalizeContext(c: OpCollection, c0: nat)
    requires c.Valid()
    requires c.OpList? ==> forall op :: op in c.items ==> op.ctx == c0
    requires c.OpDict? ==> forall i :: 0 <= i < |c.entries| ==> c.entries[i].0.ctx == c0
    ensures forall op :: op in KeysOf(Normalize(c)) ==> op.ctx == if c.Size() == 0 then MainCtx else c0
  {
  }

  /** `orig_ops`: each operator, moved to the stage's context, to the operator it was made from. */
  function OrigOps(es: seq<(Func, Freq)>, ctx: nat): map<Func, Func>
  {
    ZipMap(TranslateAll(KeysOf(es), ctx), KeysOf(es))
  }

  /**
    `op_from_orig`: the pairs of `orig_ops` turned around.  With distinct
    operators, `orig_ops.items()` are the pairs of the translated and the
    original operators in dictionary order.
   */
  function OpFromOrig(es: seq<(Func, Freq)>, ctx: nat): map<Func, Func>
  {
    ZipMap(KeysOf(es), TranslateAll(KeysOf(es), ctx))
  }

  /** `op_freqs`: each translated operator to the frequency of its original. */
  function OpFreqs(es: seq<(Func, Freq)>, ctx: nat): map<Func, Freq>
  {
    ZipMap(TranslateAll(KeysOf(es), ctx), FreqsOf(es))
  }

  /**
    The tables the constructor builds: the translated operators are
    distinct, `orig_ops` and `op_from_orig` are inverse to each other, and
    each has one entry per operator.
   */
  lemma StageTablesInverse(es: seq<(Func, Freq)>, c0: nat, ctx: nat)
    requires Distinct(KeysOf(es)) && forall op :: op in KeysOf(es) ==> op.ctx == c0
    ensures Distinct(TranslateAll(KeysOf(es), ctx))
    ensures Inverse(OrigOps(es, ctx), OpFromOrig(es, ctx))
    ensures |OrigOps(es, ctx)| == |es| && |OpFromOrig(es, ctx)| == |es|
  {
    var ks := KeysOf(es);
    var ops := TranslateAll(ks, ctx);
    TranslateAllDistinct(ks, c0, ctx);
    ZipMapInverse(ops, ks);
    ZipMapSize(ops, ks);
    ZipMapSize(ks, ops);
  }

  /**
    Each translated operator maps to its original and keeps its original's
    frequency, and each original maps to its translation.
   */
  lemma StageTablesEntries(es: seq<(Func, Freq)>, c0: nat, ctx: nat)
    requires Distinct(KeysOf(es)) && forall op :: op in KeysOf(es) ==> op.ctx == c0
    ensures var ops := TranslateAll(KeysOf(es), ctx);
      forall i :: 0 <= i < |es| ==>
        OrigOps(es, ctx)[ops[i]] == es[i].0 && OpFromOrig(es, ctx)[es[i].0] == ops[i] &&
        OpFreqs(es, ctx)[ops[i]] == es[i].1
  {
    var ks := KeysOf(es);
    var ops := TranslateAll(ks, ctx);
    TranslateAllDistinct(ks, c0, ctx);
    forall i | 0 <= i < |es|
      ensures OrigOps(es, ctx)[ops[i]] == ks[i] && OpFromOrig(es, ctx)[ks[i]] == ops[i]
      ensures OpFreqs(es, ctx)[ops[i]] == es[i].1
    {
      ZipMapAt(ops, ks, i);
      ZipMapAt(ks, ops, i);
      ZipMapAt(ops, FreqsOf(es), i);
    }
  }

  lemma OrigOpsShape(es: seq<(Func, Freq)>, c0: nat, ctx: nat)
    requires Distinct(KeysOf(es)) && forall op :: op in KeysOf(es) ==> op.ctx == c0
    ensures forall op :: op in TranslateAll(KeysOf(es), ctx) ==>
      op in OrigOps(es, ctx) && SameShape(OrigOps(es, ctx)[op], op) && Translate(OrigOps(es, ctx)[op], ctx) == op
  {
    var ops := TranslateAll(KeysOf(es), ctx);
    StageTablesEntries(es, c0, ctx);
    forall op | op in ops
      ensures op in OrigOps(es, ctx) && SameShape(OrigOps(es, ctx)[op], op) && Translate(OrigOps(es, ctx)[op], ctx) == op
    {
      var i :| 0 <= i < |ops| && ops[i] == op;
      assert OrigOps(es, ctx)[op] == es[i].0;
    }
  }

  lemma OrigOpsInjective(es: seq<(Func, Freq)>, c0: nat, ctx: nat)
    requires Distinct(KeysOf(es)) && forall op :: op in KeysOf(es) ==> op.ctx == c0
    ensures var ops := TranslateAll(KeysOf(es), ctx);
      forall a, b :: a in ops && b in ops && OrigOps(es, ctx)[a] == OrigOps(es, ctx)[b] ==> a == b
  {
    OrigOpsShape(es, c0, ctx);
  }

  lemma OpFromOrigInOps(es: seq<(Func, Freq)>, c0: nat, ctx: nat)
    requires Distinct(KeysOf(es)) && forall op :: op in KeysOf(es) ==> op.ctx == c0
    ensures forall op :: op in OpFromOrig(es, ctx) ==> OpFromOrig(es, ctx)[op] in TranslateAll(KeysOf(es), ctx)
  {
    var ks := KeysOf(es);
    StageTablesEntries(es, c0, ctx);
    forall op | op in OpFromOrig(es, ctx)
      ensures OpFromOrig(es, ctx)[op] in TranslateAll(ks, ctx)
    {
      var i :| 0 <= i < |ks| && ks[i] == op;
      assert OpFromOrig(es, ctx)[op] == TranslateAll(ks, ctx)[i];
    }
  }

  /**
    The translated operators with `orig_ops` form an operator table, and
    `op_from_orig` only yields translated operators.
   */
  lemma StageTablesOps(es: seq<(Func, Freq)>, c0: nat, ctx: nat)
    requires Distinct(KeysOf(es)) && forall op :: op in KeysOf(es) ==> op.ctx == c0
    ensures OpsTable(TranslateAll(KeysOf(es), ctx), OrigOps(es, ctx))
    ensures forall op :: op in OpFromOrig(es, ctx) ==> OpFromOrig(es, ctx)[op] in TranslateAll(KeysOf(es), ctx)
  {
    TranslateAllDistinct(KeysOf(es), c0, ctx);
    OrigOpsShape(es, c0, ctx);
    OrigOpsInjective(es, c0, ctx);
    OpFromOrigInOps(es, c0, ctx);
  }

  /** The tables have the translated operators as keys, all in the stage's context. */
  lemma StageTablesDomains(es: seq<(Func, Freq)>, ctx: nat)
    ensures var ops := TranslateAll(KeysOf(es), ctx);
      (forall op :: op in ops ==> op.ctx == ctx) &&
      (forall op :: op in OrigOps(es, ctx) ==> op in ops) && (forall op :: op in OpFreqs(es, ctx) ==> op in ops)
  {
    var ops := TranslateAll(KeysOf(es), ctx);
    forall op | op in ops
      ensures op.ctx == ctx
    {
      var i :| 0 <= i < |ops| && ops[i] == op;
    }
  }

  /**
    Everything the constructor establishes about its tables, for a
    non-empty list of distinct operators of one context.
   */
  lemma StageTablesFacts(es: seq<(Func, Freq)>, c0: nat, ctx: nat)
    requires |es| >= 1 && Distinct(KeysOf(es)) && forall op :: op in KeysOf(es) ==> op.ctx == c0
    ensures var ops, oo, ofo, freqs := TranslateAll(KeysOf(es), ctx), OrigOps(es, ctx), OpFromOrig(es, ctx), OpFreqs(es, ctx);
      |ops| >= 1 && OpsTable(ops, oo) && Inverse(oo, ofo) &&
      (forall op :: op in ofo ==> ofo[op] in ops) &&
      (forall op :: op in ops ==> op.ctx == ctx) &&
      (forall op :: op in oo ==> op in ops) && (forall op :: op in freqs ==> op in ops) &&
      |ops| == |es| &&
      forall i :: 0 <= i < |es| ==>
        ops[i] == Translate(es[i].0, ctx) && oo[ops[i]] == es[i].0 && ofo[es[i].0] == ops[i] &&
        ops[i] in freqs && freqs[ops[i]] == es[i].1
  {
    StageTablesInverse(es, c0, ctx);
    StageTablesOps(es, c0, ctx);
    StageTablesEntries(es, c0, ctx);
    StageTablesDomains(es, ctx);
  }

  // ---------------------------------------------------------------------------
  // write_constraints

  /** The constraints the stage adds to its goal, over named solver constants. */
  datatype Constraint =
    | InsnSem(op: Func, res: Var, operands: seq<Var>)   // precondition and semantics of `op` on these variables
    | Equal(a: Var, b: Var)
    | Assign(v: Var, val: int)                          // an input or output value of a sample
    | SpecHolds(outs: seq<Var>, ins: seq<int>)          // the specification's formula on a sample
    | OneOf(v: Var, values: set<int>)                   // `Or([ cv == v for v in ...])`

  /** What the stage consults while it writes constraints and rebuilds programs. */
  datatype Tables = Tables(layout: Layout, inTys: seq<Sort>, outTys: seq<Sort>, opFromOrig: map<Func, Func>)
  {
    predicate Valid()
    {
      |inTys| == layout.nInputs && |outTys| == layout.nOutputs
    }
  }

  /** `write_constraints` as it is written, or with its two slips corrected. */
  datatype Variant = AsWritten | Corrected

  /**
    As written: the sort of the line an operand refers to is the output sort
    of `prg.insns[value - n_inputs]`, so an input line indexes the
    instructions from the end.
   */
  function ProducerTypeAsWritten(t: Tables, p: Prg, value: int): (r: Result<Sort>)
    ensures r.Ok? <==> PyIndex(p.insns, value - t.layout.nInputs).Some? &&
                       PyIndex(p.insns, value - t.layout.nInputs).value.op in t.opFromOrig
    ensures r.Ok? ==> r.value == t.opFromOrig[PyIndex(p.insns, value - t.layout.nInputs).value.op].outType
  {
    match PyIndex(p.insns, value - t.layout.nInputs)
    case None => Err("IndexError")
    case Some(ins) => if ins.op in t.opFromOrig then Ok(t.opFromOrig[ins.op].outType) else Err("KeyError")
  }

  /** Corrected: an input line has the input's sort, an instruction line its operator's output sort. */
  function ProducerType(t: Tables, p: Prg, value: int): (r: Result<Sort>)
    requires t.Valid()
    ensures 0 <= value < t.layout.nInputs ==> r == Ok(t.inTys[value])
    ensures t.layout.nInputs <= value < t.layout.nInputs + |p.insns| ==>
      (r.Ok? <==> p.insns[value - t.layout.nInputs].op in t.opFromOrig) &&
      (r.Ok? ==> r.value == t.opFromOrig[p.insns[value - t.layout.nInputs].op].outType)
    ensures (value < 0 || value >= t.layout.nInputs + |p.insns|) ==> r.Err?
  {
    if 0 <= value < t.layout.nInputs then Ok(t.inTys[value])
    else if value < 0 then Err("IndexError")
    else ProducerTypeAsWritten(t, p, value)
  }

  function ProducerTypeOf(v: Variant, t: Tables, p: Prg, value: int): Result<Sort>
    requires t.Valid()
  {
    if v == AsWritten then ProducerTypeAsWritten(t, p, value) else ProducerType(t, p, value)
  }

  /** Operand k can be written: a constant has a sort among `tys`, a reference a producer whose sort is known. */
  predicate ArgOk(v: Variant, t: Tables, p: Prg, a: Arg, k: nat, tys: seq<Sort>)
    requires t.Valid()
  {
    if a.isConst then k < |tys| else ProducerTypeOf(v, t, p, a.value).Ok?
  }

  /** The variable operand k stands for: the constant variable of the slot, or the producer's result. */
  function ArgVar(v: Variant, t: Tables, p: Prg, slot: nat, a: Arg, k: nat, tys: seq<Sort>, inst: string): Var
    requires t.Valid() && ArgOk(v, t, p, a, k, tys)
  {
    if a.isConst then ConstVar(slot, k, tys[k], Some(FaInstance))
    else ResVar(a.value, ProducerTypeOf(v, t, p, a.value).value, Some(inst))
  }

  /**
    The inner loop over the first n operands of slot `slot`: their
    variables, and the constant-slot dictionary `cm` with an entry added for
    every constant operand.
   */
  function OperandVars(v: Variant, t: Tables, p: Prg, slot: nat, args: seq<Arg>, tys: seq<Sort>, inst: string,
                       cm: map<(nat, nat), Var>, n: nat): (r: Result<(seq<Var>, map<(nat, nat), Var>)>)
    requires t.Valid() && n <= |args|

  {
    if n == 0 then Ok(([], cm))
    else match OperandVars(v, t, p, slot, args, tys, inst, cm, n - 1)
      case Err(e) => Err(e)
      case Ok(pr) =>
        var a := args[n - 1];
        if a.isConst then
          if n - 1 < |tys| then
            var cv := ConstVar(slot, n - 1, tys[n - 1], Some(FaInstance));
            Ok((pr.0 + [cv], pr.1[(slot, n - 1) := cv]))
          else Err("IndexError")
        else match ProducerTypeOf(v, t, p, a.value)
          case Err(e) => Err(e)
          case Ok(ty) => Ok((pr.0 + [ResVar(a.value, ty, Some(inst))], pr.1))
  }

  /** The inner loop over the first n operands succeeds exactly when each of them can be written. */
  lemma {:induction false} OperandVarsOkAt(v: Variant, t: Tables, p: Prg, slot: nat, args: seq<Arg>, tys: seq<Sort>,
                                           inst: string, cm: map<(nat, nat), Var>, n: nat)
    requires t.Valid() && n <= |args|
    ensures OperandVars(v, t, p, slot, args, tys, inst, cm, n).Ok? <==> forall k :: 0 <= k < n ==> ArgOk(v, t, p, args[k], k, tys)
  {
    if n > 0 {
      OperandVarsOkAt(v, t, p, slot, args, tys, inst, cm, n - 1);
      var r0 := OperandVars(v, t, p, slot, args, tys, inst, cm, n - 1);
      assert OperandVars(v, t, p, slot, args, tys, inst, cm, n).Ok? <==> r0.Ok? && ArgOk(v, t, p, args[n - 1], n - 1, tys);
    }
  }

  /** On success it gives each of the first n operands its variable, in order. */
  lemma {:induction false} OperandVarsListAt(v: Variant, t: Tables, p: Prg, slot: nat, args: seq<Arg>, tys: seq<Sort>,
                                             inst: string, cm: map<(nat, nat), Var>, n: nat)
    requires t.Valid() && n <= |args| && OperandVars(v, t, p, slot, args, tys, inst, cm, n).Ok?
    ensures var vs := OperandVars(v, t, p, slot, args, tys, inst, cm, n).value.0;
      |vs| == n && forall k :: 0 <= k < n ==> ArgOk(v, t, p, args[k], k, tys) && vs[k] == ArgVar(v, t, p, slot, args[k], k, tys, inst)
  {
    if n > 0 {
      var r0 := OperandVars(v, t, p, slot, args, tys, inst, cm, n - 1);
      var r := OperandVars(v, t, p, slot, args, tys, inst, cm, n);
      assert r0.Ok? && ArgOk(v, t, p, args[n - 1], n - 1, tys);
      OperandVarsListAt(v, t, p, slot, args, tys, inst, cm, n - 1);
      assert r.value.0 == r0.value.0 + [ArgVar(v, t, p, slot, args[n - 1], n - 1, tys, inst)];
    }
  }

  /**
    On success the dictionary records exactly the constant operands among
    the first n, each under its own constant variable, on top of the
    entries it started with.
   */
  lemma {:induction false} OperandVarsDictAt(v: Variant, t: Tables, p: Prg, slot: nat, args: seq<Arg>, tys: seq<Sort>,
                                             inst: string, cm: map<(nat, nat), Var>, n: nat)
    requires t.Valid() && n <= |args| && OperandVars(v, t, p, slot, args, tys, inst, cm, n).Ok?
    ensures forall k :: 0 <= k < n && args[k].isConst ==> k < |tys|
    ensures var cm2 := OperandVars(v, t, p, slot, args, tys, inst, cm, n).value.1;
      (forall key: (nat, nat) :: key in cm2 <==> key in cm || (key.0 == slot && key.1 < n && args[key.1].isConst)) &&
      (forall key: (nat, nat) :: key in cm2 ==>
         cm2[key] == if key.0 == slot && key.1 < n && args[key.1].isConst
                     then ConstVar(slot, key.1, tys[key.1], Some(FaInstance)) else cm[key])
  {
    if n > 0 {
      var r0 := OperandVars(v, t, p, slot, args, tys, inst, cm, n - 1);
      var r := OperandVars(v, t, p, slot, args, tys, inst, cm, n);
      assert r0.Ok?;
      OperandVarsDictAt(v, t, p, slot, args, tys, inst, cm, n - 1);
      if args[n - 1].isConst {
        assert n - 1 < |tys|;
        assert r.value.1 == r0.value.1[(slot, n - 1) := ConstVar(slot, n - 1, tys[n - 1], Some(FaInstance))];
      } else {
        assert r.value.1 == r0.value.1;
      }
    }
  }

  lemma OperandVarsOk(v: Variant, t: Tables, p: Prg, slot: nat, args: seq<Arg>, tys: seq<Sort>,
                      inst: string, cm: map<(nat, nat), Var>)
    requires t.Valid()
    ensures OperandVars(v, t, p, slot, args, tys, inst, cm, |args|).Ok? <==>
      forall k :: 0 <= k < |args| ==> ArgOk(v, t, p, args[k], k, tys)
  {
    OperandVarsOkAt(v, t, p, slot, args, tys, inst, cm, |args|);
  }

  lemma OperandVarsVars(v: Variant, t: Tables, p: Prg, slot: nat, args: seq<Arg>, tys: seq<Sort>,
                        inst: string, cm: map<(nat, nat), Var>)
    requires t.Valid() && OperandVars(v, t, p, slot, args, tys, inst, cm, |args|).Ok?
    ensures forall k :: 0 <= k < |args| ==> ArgOk(v, t, p, args[k], k, tys)
    ensures var vs := OperandVars(v, t, p, slot, args, tys, inst, cm, |args|).value.0;
      |vs| == |args| && forall k :: 0 <= k < |args| ==> vs[k] == ArgVar(v, t, p, slot, args[k], k, tys, inst)
  {
    OperandVarsListAt(v, t, p, slot, args, tys, inst, cm, |args|);
  }

  lemma OperandVarsSlots(v: Variant, t: Tables, p: Prg, slot: nat, args: seq<Arg>, tys: seq<Sort>,
                         inst: string, cm: map<(nat, nat), Var>)
    requires t.Valid() && OperandVars(v, t, p, slot, args, tys, inst, cm, |args|).Ok?
    ensures var cm2 := OperandVars(v, t, p, slot, args, tys, inst, cm, |args|).value.1;
      (forall k :: 0 <= k < |args| ==> ArgOk(v, t, p, args[k], k, tys)) &&
      (forall key: (nat, nat) :: key in cm2 <==> key in cm || (key.0 == slot && key.1 < |args| && args[key.1].isConst)) &&
      (forall key: (nat, nat) :: key in cm2 ==>
         cm2[key] == if key.0 == slot && key.1 < |args| && args[key.1].isConst
                     then ConstVar(slot, key.1, tys[key.1], Some(FaInstance)) else cm[key])
  {
    OperandVarsOkAt(v, t, p, slot, args, tys, inst, cm, |args|);
    OperandVarsDictAt(v, t, p, slot, args, tys, inst, cm, |args|);
  }

  /** Instruction j of the stored program can be written: its operator is known and every operand can be written. */
  predicate InsnOk(v: Variant, t: Tables, p: Prg, j: nat)
    requires t.Valid()
  {
    j < |p.insns| && p.insns[j].op in t.opFromOrig &&
    forall k :: 0 <= k < |p.insns[j].args| ==>
      ArgOk(v, t, p, p.insns[j].args[k], k, t.opFromOrig[p.insns[j].op].inTypes)
  }

  /**
    The number of instruction slots the loop of `write_constraints` visits:
    as written `range(n_inputs, length - n_outputs)`, corrected every
    instruction slot.
   */
  function InsnLoopCount(v: Variant, l: Layout): (r: nat)
    ensures v == Corrected ==> r == l.nInsns
    ensures v == AsWritten ==> r + l.nOutputs == l.nInsns + 1 || (r == 0 && l.nOutputs > l.nInsns)
  {
    if v == Corrected then l.nInsns
    else if l.Length() >= l.nInputs + l.nOutputs then l.Length() - l.nInputs - l.nOutputs else 0
  }

  /**
    The first n iterations of the instruction loop: one `InsnSem`
    constraint per instruction, and the constant-slot dictionary so far.
   */
  function InsnsConstraints(v: Variant, t: Tables, p: Prg, inst: string, n: nat): (r: Result<(seq<Constraint>, map<(nat, nat), Var>)>)
    requires t.Valid()
    ensures r.Ok? ==> |r.value.0| == n
  {
    if n == 0 then Ok(([], map[]))
    else match InsnsConstraints(v, t, p, inst, n - 1)
      case Err(e) => Err(e)
      case Ok(pr) =>
        var j := n - 1;
        var slot := t.layout.nInputs + j;
        if j >= |p.insns| then Err("IndexError")
        else if p.insns[j].op !in t.opFromOrig then Err("KeyError")
        else
          var op := t.opFromOrig[p.insns[j].op];
          match OperandVars(v, t, p, slot, p.insns[j].args, op.inTypes, inst, pr.1, |p.insns[j].args|)
          case Err(e) => Err(e)
          case Ok(ov) => Ok((pr.0 + [InsnSem(op, ResVar(slot, op.outType, Some(inst)), ov.0)], ov.1))
  }

  /** `var_outs_val(instance)`: the output operand variables of the instance. */
  function OutVars(t: Tables, inst: string): (r: seq<Var>)
    requires t.Valid()
    ensures |r| == t.layout.nOutputs
  {
    seq(t.layout.nOutputs, k requires 0 <= k < t.layout.nOutputs => OpndVar(t.layout.OutInsn(), k, t.outTys[k], Some(inst)))
  }

  /** `operand == val` along `zip(operands, outs)`. */
  function Equalities(a: seq<Var>, b: seq<Var>): (r: seq<Constraint>)
    ensures |r| == Min(|a|, |b|)
    ensures forall k :: 0 <= k < |r| ==> r[k] == Equal(a[k], b[k])
  {
    if a == [] || b == [] then [] else [Equal(a[0], b[0])] + Equalities(a[1..], b[1..])
  }

  /**
    `write_constraints(instance)` on the stored program: the constraints it
    adds to the goal and the `const_set` dictionary it returns, or the
    exception it raises first.
   */
  function Constraints(v: Variant, t: Tables, p: Prg, inst: string): (r: Result<(seq<Constraint>, map<(nat, nat), Var>)>)
    requires t.Valid()
  {
    match InsnsConstraints(v, t, p, inst, InsnLoopCount(v, t.layout))
    case Err(e) => Err(e)
    case Ok(ic) =>
      match OperandVars(v, t, p, t.layout.OutInsn(), p.outputs, t.outTys, inst, ic.1, |p.outputs|)
      case Err(e) => Err(e)
      case Ok(oc) => Ok((ic.0 + Equalities(oc.0, OutVars(t, inst)), oc.1))
  }

  /** Slot key.0 is one of the first n instruction slots and its operand key.1 is a constant in the stored program. */
  predicate InsnConstSlot(l: Layout, p: Prg, n: nat, key: (nat, nat))
  {
    l.nInputs <= key.0 < l.nInputs + n && key.0 - l.nInputs < |p.insns| &&
    key.1 < |p.insns[key.0 - l.nInputs].args| && p.insns[key.0 - l.nInputs].args[key.1].isConst
  }

  /** The constraint `write_constraints` emits for instruction j: the semantics of its operator between its result and its operands. */
  predicate SemAt(v: Variant, t: Tables, p: Prg, inst: string, j: nat, c: Constraint)
    requires t.Valid() && InsnOk(v, t, p, j)
  {
    var op := t.opFromOrig[p.insns[j].op];
    var args := p.insns[j].args;
    c.InsnSem? && c.op == op && c.res == ResVar(t.layout.nInputs + j, op.outType, Some(inst)) &&
    |c.operands| == |args| &&
    forall k :: 0 <= k < |args| ==> c.operands[k] == ArgVar(v, t, p, t.layout.nInputs + j, args[k], k, op.inTypes, inst)
  }

  /** The constant variable the stored program's constant at key gets. */
  predicate InsnSlotVar(t: Tables, p: Prg, key: (nat, nat), x: Var)
  {
    var l := t.layout;
    InsnConstSlot(l, p, l.nInsns + 1, key) && key.0 - l.nInputs < |p.insns| &&
    p.insns[key.0 - l.nInputs].op in t.opFromOrig &&
    key.1 < |t.opFromOrig[p.insns[key.0 - l.nInputs].op].inTypes| &&
    x == ConstVar(key.0, key.1, t.opFromOrig[p.insns[key.0 - l.nInputs].op].inTypes[key.1], Some(FaInstance))
  }

  /** The loop over the first n instructions succeeds exactly when each of them can be written. */
  lemma {:induction false} InsnsConstraintsOk(v: Variant, t: Tables, p: Prg, inst: string, n: nat)
    requires t.Valid()
    ensures InsnsConstraints(v, t, p, inst, n).Ok? <==> forall j :: 0 <= j < n ==> InsnOk(v, t, p, j)
  {
    if n > 0 {
      InsnsConstraintsOk(v, t, p, inst, n - 1);
      var r0 := InsnsConstraints(v, t, p, inst, n - 1);
      var j := n - 1;
      if r0.Ok? {
        if j < |p.insns| && p.insns[j].op in t.opFromOrig {
          var op := t.opFromOrig[p.insns[j].op];
          var args := p.insns[j].args;
          OperandVarsOk(v, t, p, t.layout.nInputs + j, args, op.inTypes, inst, r0.value.1);
          var ov := OperandVars(v, t, p, t.layout.nInputs + j, args, op.inTypes, inst, r0.value.1, |args|);
          assert InsnsConstraints(v, t, p, inst, n).Ok? <==> ov.Ok?;
          assert InsnOk(v, t, p, j) <==> ov.Ok?;
        } else {
          assert !InsnOk(v, t, p, j);
        }
      }
    }
  }

  /** One more iteration of the instruction loop that succeeds: the previous ones succeeded and instruction n - 1 was written. */
  lemma InsnsConstraintsStep(v: Variant, t: Tables, p: Prg, inst: string, n: nat)
    requires t.Valid() && n > 0 && InsnsConstraints(v, t, p, inst, n).Ok?
    ensures var r0 := InsnsConstraints(v, t, p, inst, n - 1);
      r0.Ok? && n - 1 < |p.insns| && p.insns[n - 1].op in t.opFromOrig &&
      var op := t.opFromOrig[p.insns[n - 1].op];
      var ov := OperandVars(v, t, p, t.layout.nInputs + n - 1, p.insns[n - 1].args, op.inTypes, inst, r0.value.1, |p.insns[n - 1].args|);
      ov.Ok? &&
      InsnsConstraints(v, t, p, inst, n).value ==
        (r0.value.0 + [InsnSem(op, ResVar(t.layout.nInputs + n - 1, op.outType, Some(inst)), ov.value.0)], ov.value.1)
  {
  }

  /** It then emits, for each instruction in order, the semantics of its operator. */
  lemma {:induction false} InsnsConstraintsSem(v: Variant, t: Tables, p: Prg, inst: string, n: nat)
    requires t.Valid() && InsnsConstraints(v, t, p, inst, n).Ok?
    ensures forall j :: 0 <= j < n ==> InsnOk(v, t, p, j)
    ensures forall j :: 0 <= j < n ==> SemAt(v, t, p, inst, j, InsnsConstraints(v, t, p, inst, n).value.0[j])
  {
    InsnsConstraintsOk(v, t, p, inst, n);
    if n > 0 {
      InsnsConstraintsStep(v, t, p, inst, n);
      InsnsConstraintsSem(v, t, p, inst, n - 1);
      var r0 := InsnsConstraints(v, t, p, inst, n - 1);
      var j := n - 1;
      var op := t.opFromOrig[p.insns[j].op];
      var args := p.insns[j].args;
      OperandVarsVars(v, t, p, t.layout.nInputs + j, args, op.inTypes, inst, r0.value.1);
    }
  }

  /** The constant-slot dictionary after instruction n - 1, from the one before it. */
  lemma SlotsStep(t: Tables, p: Prg, n: nat, cm0: map<(nat, nat), Var>, cm: map<(nat, nat), Var>)
    requires t.Valid() && 0 < n <= t.layout.nInsns + 1 && n - 1 < |p.insns| && p.insns[n - 1].op in t.opFromOrig
    requires forall key: (nat, nat) :: key in cm0 <==> InsnConstSlot(t.layout, p, n - 1, key)
    requires forall key: (nat, nat) :: key in cm0 ==> InsnSlotVar(t, p, key, cm0[key])
    requires var args, tys := p.insns[n - 1].args, t.opFromOrig[p.insns[n - 1].op].inTypes;
      var slot := t.layout.nInputs + n - 1;
      (forall k :: 0 <= k < |args| && args[k].isConst ==> k < |tys|) &&
      (forall key: (nat, nat) :: key in cm <==> key in cm0 || (key.0 == slot && key.1 < |args| && args[key.1].isConst)) &&
      (forall key: (nat, nat) :: key in cm ==>
         cm[key] == if key.0 == slot && key.1 < |args| && args[key.1].isConst
                    then ConstVar(slot, key.1, tys[key.1], Some(FaInstance)) else cm0[key])
    ensures forall key: (nat, nat) :: key in cm <==> InsnConstSlot(t.layout, p, n, key)
    ensures forall key: (nat, nat) :: key in cm ==> InsnSlotVar(t, p, key, cm[key])
  {
    var slot := t.layout.nInputs + n - 1;
    forall key: (nat, nat)
      ensures key in cm <==> InsnConstSlot(t.layout, p, n, key)
    {
      if key.0 == slot {
        assert key !in cm0;
      }
    }
    forall key: (nat, nat) | key in cm
      ensures InsnSlotVar(t, p, key, cm[key])
    {
      if !(key.0 == slot && key.1 < |p.insns[n - 1].args| && p.insns[n - 1].args[key.1].isConst) {
        assert key in cm0;
      }
    }
  }

  /**
    It records exactly the constants of those instructions, each under its
    own constant variable of instance `fa`, whose sort is the operator's
    operand sort.
   */
  lemma {:induction false} InsnsConstraintsSlots(v: Variant, t: Tables, p: Prg, inst: string, n: nat)
    requires t.Valid() && n <= t.layout.nInsns + 1 && InsnsConstraints(v, t, p, inst, n).Ok?
    ensures var cm := InsnsConstraints(v, t, p, inst, n).value.1;
      (forall key: (nat, nat) :: key in cm <==> InsnConstSlot(t.layout, p, n, key)) &&
      (forall key: (nat, nat) :: key in cm ==> InsnSlotVar(t, p, key, cm[key]))
  {
    if n > 0 {
      InsnsConstraintsStep(v, t, p, inst, n);
      InsnsConstraintsSlots(v, t, p, inst, n - 1);
      var r0 := InsnsConstraints(v, t, p, inst, n - 1);
      var op := t.opFromOrig[p.insns[n - 1].op];
      OperandVarsSlots(v, t, p, t.layout.nInputs + n - 1, p.insns[n - 1].args, op.inTypes, inst, r0.value.1);
      SlotsStep(t, p, n, r0.value.1, InsnsConstraints(v, t, p, inst, n).value.1);
    }
  }

  /** Operand k of the outputs is a constant: the output slot's key. */
  predicate OutConstSlot(l: Layout, p: Prg, key: (nat, nat))
  {
    key.0 == l.OutInsn() && key.1 < |p.outputs| && p.outputs[key.1].isConst
  }

  /**
    `write_constraints` succeeds exactly when every instruction it visits
    and every output operand can be written.
   */
  lemma ConstraintsOk(v: Variant, t: Tables, p: Prg, inst: string)
    requires t.Valid()
    ensures Constraints(v, t, p, inst).Ok? <==>
      (forall j :: 0 <= j < InsnLoopCount(v, t.layout) ==> InsnOk(v, t, p, j)) &&
      (forall k :: 0 <= k < |p.outputs| ==> ArgOk(v, t, p, p.outputs[k], k, t.outTys))
  {
    var n := InsnLoopCount(v, t.layout);
    InsnsConstraintsOk(v, t, p, inst, n);
    var ic := InsnsConstraints(v, t, p, inst, n);
    if ic.Ok? {
      OperandVarsOk(v, t, p, t.layout.OutInsn(), p.outputs, t.outTys, inst, ic.value.1);
    }
  }

  /** `write_constraints` is the instruction loop followed by the output equalities. */
  lemma ConstraintsParts(v: Variant, t: Tables, p: Prg, inst: string)
    requires t.Valid() && Constraints(v, t, p, inst).Ok?
    ensures var n := InsnLoopCount(v, t.layout);
      var ic := InsnsConstraints(v, t, p, inst, n);
      ic.Ok? &&
      var ov := OperandVars(v, t, p, t.layout.OutInsn(), p.outputs, t.outTys, inst, ic.value.1, |p.outputs|);
      ov.Ok? && Constraints(v, t, p, inst).value.0 == ic.value.0 + Equalities(ov.value.0, OutVars(t, inst))
  {
  }

  /**
    The constraints are, in order, the semantics of each instruction visited
    and one equality per output between the output operand's variable and
    the output value variable of the instance.
   */
  lemma ConstraintsSem(v: Variant, t: Tables, p: Prg, inst: string)
    requires t.Valid() && Constraints(v, t, p, inst).Ok?
    ensures var n, cs := InsnLoopCount(v, t.layout), Constraints(v, t, p, inst).value.0;
      var l := t.layout;
      |cs| == n + Min(|p.outputs|, l.nOutputs) &&
      (forall j :: 0 <= j < n ==> InsnOk(v, t, p, j) && SemAt(v, t, p, inst, j, cs[j])) &&
      (forall k :: 0 <= k < |p.outputs| ==> ArgOk(v, t, p, p.outputs[k], k, t.outTys)) &&
      (forall k :: 0 <= k < Min(|p.outputs|, l.nOutputs) ==>
         cs[n + k] == Equal(ArgVar(v, t, p, l.OutInsn(), p.outputs[k], k, t.outTys, inst),
                            OpndVar(l.OutInsn(), k, t.outTys[k], Some(inst))))
  {
    var n, l := InsnLoopCount(v, t.layout), t.layout;
    ConstraintsParts(v, t, p, inst);
    var ic := InsnsConstraints(v, t, p, inst, n).value;
    InsnsConstraintsSem(v, t, p, inst, n);
    OperandVarsVars(v, t, p, l.OutInsn(), p.outputs, t.outTys, inst, ic.1);
    var vs := OperandVars(v, t, p, l.OutInsn(), p.outputs, t.outTys, inst, ic.1, |p.outputs|).value.0;
    OutputEqualities(v, t, p, inst, ic.0, vs);
  }

  /** The output equalities pair each output operand's variable with the instance's output value variable. */
  lemma OutputEqualities(v: Variant, t: Tables, p: Prg, inst: string, ics: seq<Constraint>, vs: seq<Var>)
    requires t.Valid()
    requires |vs| == |p.outputs|
    requires forall k :: 0 <= k < |p.outputs| ==>
      ArgOk(v, t, p, p.outputs[k], k, t.outTys) && vs[k] == ArgVar(v, t, p, t.layout.OutInsn(), p.outputs[k], k, t.outTys, inst)
    ensures var cs, n, l := ics + Equalities(vs, OutVars(t, inst)), |ics|, t.layout;
      |cs| == n + Min(|p.outputs|, l.nOutputs) &&
      (forall j :: 0 <= j < n ==> cs[j] == ics[j]) &&
      (forall k :: 0 <= k < Min(|p.outputs|, l.nOutputs) ==>
         cs[n + k] == Equal(ArgVar(v, t, p, l.OutInsn(), p.outputs[k], k, t.outTys, inst),
                            OpndVar(l.OutInsn(), k, t.outTys[k], Some(inst))))
  {
    var eqs := Equalities(vs, OutVars(t, inst));
    var n := |ics|;
    forall k | 0 <= k < Min(|p.outputs|, t.layout.nOutputs)
      ensures (ics + eqs)[n + k] == eqs[k]
    {
    }
  }

  /**
    The dictionary `write_constraints` returns has exactly one entry per
    constant of the stored program that it visits: the instructions of the
    loop and the outputs.  An instruction constant is named after the
    operator's operand sort, an output constant after the output sort, both
    under instance `fa`.
   */
  lemma ConstraintsSlots(v: Variant, t: Tables, p: Prg, inst: string)
    requires t.Valid() && Constraints(v, t, p, inst).Ok?
    ensures SlotDict(t, p, InsnLoopCount(v, t.layout), Constraints(v, t, p, inst).value.1)
  {
    var n := InsnLoopCount(v, t.layout);
    InsnsConstraintsSlots(v, t, p, inst, n);
    var ic := InsnsConstraints(v, t, p, inst, n);
    OperandVarsSlots(v, t, p, t.layout.OutInsn(), p.outputs, t.outTys, inst, ic.value.1);
  }

  /**
    `cm` has one entry per constant of the first n instructions and of the
    outputs: an instruction constant named after the operator's operand
    sort, an output constant after the output sort, both under instance
    `fa`.
   */
  ghost predicate SlotDict(t: Tables, p: Prg, n: nat, cm: map<(nat, nat), Var>)
  {
    (forall key: (nat, nat) :: key in cm <==> InsnConstSlot(t.layout, p, n, key) || OutConstSlot(t.layout, p, key)) &&
    (forall key: (nat, nat) :: key in cm ==>
       if OutConstSlot(t.layout, p, key)
       then key.1 < |t.outTys| && cm[key] == ConstVar(key.0, key.1, t.outTys[key.1], Some(FaInstance))
       else InsnSlotVar(t, p, key, cm[key]))
  }

  /** The description fixes the dictionary. */
  lemma SlotDictUnique(t: Tables, p: Prg, n: nat, cm1: map<(nat, nat), Var>, cm2: map<(nat, nat), Var>)
    requires SlotDict(t, p, n, cm1) && SlotDict(t, p, n, cm2)
    ensures cm1 == cm2
  {
    assert cm1.Keys == cm2.Keys;
    assert forall key :: key in cm1 ==> cm1[key] == cm2[key];
  }

  /**
    The constant dictionary does not depend on the instance: every
    instance writes the same constant variables, so the one of the last
    sample stands for all of them.
   */
  lemma ConstSlotsSameForAllInstances(v: Variant, t: Tables, p: Prg, inst1: string, inst2: string)
    requires t.Valid()
    ensures Constraints(v, t, p, inst1).Ok? <==> Constraints(v, t, p, inst2).Ok?
    ensures Constraints(v, t, p, inst1).Ok? ==> Constraints(v, t, p, inst1).value.1 == Constraints(v, t, p, inst2).value.1
  {
    ConstraintsOk(v, t, p, inst1);
    ConstraintsOk(v, t, p, inst2);
    if Constraints(v, t, p, inst1).Ok? {
      ConstraintsSlots(v, t, p, inst1);
      ConstraintsSlots(v, t, p, inst2);
      SlotDictUnique(t, p, InsnLoopCount(v, t.layout), Constraints(v, t, p, inst1).value.1, Constraints(v, t, p, inst2).value.1);
    }
  }

  /** Once an operand fails, the inner loop fails with the same exception however far it would run. */
  lemma {:induction false} OperandVarsErrStays(v: Variant, t: Tables, p: Prg, slot: nat, args: seq<Arg>, tys: seq<Sort>,
                                               inst: string, cm: map<(nat, nat), Var>, n: nat, m: nat)
    requires t.Valid() && n <= m <= |args| && OperandVars(v, t, p, slot, args, tys, inst, cm, n).Err?
    ensures OperandVars(v, t, p, slot, args, tys, inst, cm, m) == OperandVars(v, t, p, slot, args, tys, inst, cm, n)
  {
    if m > n {
      OperandVarsErrStays(v, t, p, slot, args, tys, inst, cm, n, m - 1);
    }
  }

  /** Once an instruction fails, the instruction loop fails with the same exception. */
  lemma {:induction false} InsnsErrStays(v: Variant, t: Tables, p: Prg, inst: string, n: nat, m: nat)
    requires t.Valid() && n <= m && InsnsConstraints(v, t, p, inst, n).Err?
    ensures InsnsConstraints(v, t, p, inst, m) == InsnsConstraints(v, t, p, inst, n)
  {
    if m > n {
      InsnsErrStays(v, t, p, inst, n, m - 1);
    }
  }
}
