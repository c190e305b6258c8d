/**
  The `const_set` restriction of `add_constr_wfp`: every constant-value
  variable an operator's operand sorts reach is one of the allowed
  constants of its sort.  The constants stage states it on the variables
  it names, with or without an instance; the constants it refines are the
  ones of instance `fa`.
 */
module ConstSet {
  import opened Programs
  import opened VarNames
  import opened SynthRules
  import opened ConstantsSpec
  import opened Refinement

  /**
    The answer satisfies the restriction on the constant variables of
    instance `inst`: for every slot from the first instruction on, every
    operator and every operand position it reaches, the variable is
    assigned one of the constants of the operand's sort.  An empty
    `const_set` adds nothing.
   */
  predicate ConstSetHolds(l: Layout, ops: seq<Func>, ans: Answer, inst: Option<string>, constSet: set<(Sort, int)>)
  {
    constSet == {} ||
    forall i: nat, j: nat, k: nat ::
      l.nInputs <= i < l.Length() && j < |ops| && k < Min(|ops[j].inTypes|, l.Arity(i)) ==>
        ConstVar(i, k, ops[j].inTypes[k], inst) in ans &&
        (ops[j].inTypes[k], ans[ConstVar(i, k, ops[j].inTypes[k], inst)]) in constSet
  }

  /**
    The answer gives the constant variables without an instance, of every
    slot, operator and operand position the restriction ranges over, the
    values the structural model gives them.  With an empty `const_set` no
    constraint mentions these variables, so nothing is demanded of them.
   */
  predicate AgreesInstanceless(l: Layout, ops: seq<Func>, m: Model, ans: Answer, constSet: set<(Sort, int)>)
  {
    constSet == {} ||
    forall i: nat, j: nat, k: nat ::
      l.nInputs <= i < l.Length() && j < |ops| && k < Min(|ops[j].inTypes|, l.Arity(i)) ==>
        ConstVar(i, k, ops[j].inTypes[k], None) in ans &&
        ans[ConstVar(i, k, ops[j].inTypes[k], None)] == m.constVal(i, k, ops[j].inTypes[k])
  }

  /**
    Without an instance the restriction is the one on the structural
    model: `ConstsFromSet` speaks of `constVal`, the values of the
    instance-less constant variables.
   */
  lemma ConstsFromSetIsInstanceless(l: Layout, ops: seq<Func>, m: Model, ans: Answer, constSet: set<(Sort, int)>)
    requires AgreesInstanceless(l, ops, m, ans, constSet)
    ensures ConstsFromSet(l, ops, m, constSet) <==> ConstSetHolds(l, ops, ans, None, constSet)
  {
  }

  /**
    With the restriction on the `fa` variables, every constant of a
    rebuilt instruction is an allowed constant of its operand sort, and so
    is every output constant whose sort some operator's operand at that
    position has.
   */
  lemma RefinedConstsAllowed(t: Tables, ops: seq<Func>, p: Prg, cm: map<(nat, nat), Var>, ans: Answer,
                             constSet: set<(Sort, int)>)
    requires t.Valid() && constSet != {} && |p.insns| == t.layout.nInsns
    requires forall op :: op in ops ==> op.Arity() <= t.layout.maxArity
    requires forall j :: 0 <= j < |p.insns| && p.insns[j].op in t.opFromOrig ==> t.opFromOrig[p.insns[j].op] in ops
    requires ConstsNamed(t, p, cm) && ChangedPrg(ans, cm, t.layout, p).Ok?
    requires ConstSetHolds(t.layout, ops, ans, Some(FaInstance), constSet)
    ensures var q := ChangedPrg(ans, cm, t.layout, p).value;
      |q.insns| == |p.insns| && (forall j :: 0 <= j < |p.insns| ==> |q.insns[j].args| == |p.insns[j].args|) &&
      |q.outputs| == |p.outputs| &&
      (forall j, k :: 0 <= j < |p.insns| && 0 <= k < |p.insns[j].args| && p.insns[j].args[k].isConst ==>
         p.insns[j].op in t.opFromOrig && k < |t.opFromOrig[p.insns[j].op].inTypes| &&
         (t.opFromOrig[p.insns[j].op].inTypes[k], q.insns[j].args[k].value) in constSet) &&
      (forall k, op ::
         (0 <= k < |p.outputs| && p.outputs[k].isConst && op in ops &&
          k < Min(|op.inTypes|, t.layout.nOutputs) && op.inTypes[k] == t.outTys[k]) ==>
           (t.outTys[k], q.outputs[k].value) in constSet)
  {
    var l := t.layout;
    ChangedPrgFacts(ans, cm, l, p);
    var q := ChangedPrg(ans, cm, l, p).value;
    forall j, k | 0 <= j < |p.insns| && 0 <= k < |p.insns[j].args| && p.insns[j].args[k].isConst
      ensures (t.opFromOrig[p.insns[j].op].inTypes[k], q.insns[j].args[k].value) in constSet
    {
      var op := t.opFromOrig[p.insns[j].op];
      var jj :| 0 <= jj < |ops| && ops[jj] == op;
      OpInsnSlots(l, l.nInputs + j);
      assert InsnRefined(ans, cm, l.nInputs, p.insns, j, q.insns[j]);
      assert k < Min(|ops[jj].inTypes|, l.Arity(l.nInputs + j));
    }
    forall k, op | 0 <= k < |p.outputs| && p.outputs[k].isConst && op in ops &&
        k < Min(|op.inTypes|, l.nOutputs) && op.inTypes[k] == t.outTys[k]
      ensures (t.outTys[k], q.outputs[k].value) in constSet
    {
      var jj :| 0 <= jj < |ops| && ops[jj] == op;
      OpInsnSlots(l, l.OutInsn());
      assert k < Min(|ops[jj].inTypes|, l.Arity(l.OutInsn()));
    }
  }
}
