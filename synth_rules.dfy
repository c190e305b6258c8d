/**
  The search-space constraints of `SynthN` and `SynthConstants` restated as
  decidable predicates over one assignment of the solver's structural
  variables.

  A `Model` gives a value to every structural variable of a synthesis
  problem:
    op(i)            insn_{i}_op, as the position of the operator in `ops`
    opnd(i, k)       insn_{i}_opnd_{k}, the line number operand k refers to
    isConst(i, k)    insn_{i}_opnd_{k}_is_const
    constVal(i,k,t)  insn_{i}_opnd_{k}_{t}_const_val
    resType(i)       insn_{i}_res_type
    opndType(i, k)   insn_{i}_opnd_type_{k}
  Each `add_constr_*` loop becomes one predicate: the predicate holds of a
  model exactly when the model satisfies every constraint the loop emits.
  `ProgramOf` reads the program off a model as `create_prg` does.
 */
module SynthRules {
  import opened Programs
  import opened BitVectors

  datatype Model = Model(
    op: nat -> nat,
    opnd: (nat, nat) -> nat,
    isConst: (nat, nat) -> bool,
    constVal: (nat, nat, Sort) -> int,
    resType: nat -> Sort,
    opndType: (nat, nat) -> Sort)

  /**
    The pruning options and the constant restrictions of a synthesis run:
    `max_const`, `const_set` and the `opt_*` flags.
   */
  datatype Options = Options(
    maxConst: Option<nat>,
    constSet: set<(Sort, int)>,
    noDeadCode: bool,
    noCse: bool,
    constOpt: bool,
    commutative: bool,
    insnOrder: bool)

  /**
    The operator sort is an enumeration with one constructor per operator,
    so every instruction's operator variable denotes one of `ops`.
   */
  predicate OpsInRange(l: Layout, ops: seq<Func>, m: Model)
  {
    forall i: nat :: l.nInputs <= i < l.OutInsn() ==> m.op(i) < |ops|
  }

  /** The operator selected for instruction slot i. */
  function Selected(l: Layout, ops: seq<Func>, m: Model, i: nat): Func
    requires OpsInRange(l, ops, m) && l.nInputs <= i < l.OutInsn()
  {
    ops[m.op(i)]
  }

  // ---------------------------------------------------------------------------
  // add_constr_wfp

  /** Every operand of every slot refers to an earlier slot. */
  predicate Acyclic(l: Layout, m: Model)
  {
    forall i: nat, k: nat :: i < l.Length() && k < l.Arity(i) ==> m.opnd(i, k) < i
  }

  /** `opnds[op.arity - 1]`: with arity 0 Python's index -1 selects the last operand. */
  function PinTarget(arity: nat, n: nat): nat
  {
    if arity >= 1 then arity - 1 else if n >= 1 then n - 1 else 0
  }

  /** The operands at or beyond the selected operator's arity equal operand arity - 1. */
  predicate UnusedPinned(l: Layout, ops: seq<Func>, m: Model)
    requires OpsInRange(l, ops, m)
  {
    forall i: nat, k: nat {:trigger m.opnd(i, k)} ::
      l.nInputs <= i < l.OutInsn() && Selected(l, ops, m, i).Arity() <= k < l.maxArity ==>
        m.opnd(i, k) == m.opnd(i, PinTarget(Selected(l, ops, m, i).Arity(), l.maxArity))
  }

  /** The number of set constant flags among the first n operands of slot i. */
  function FlagCount(m: Model, i: nat, n: nat): (r: nat)
    ensures r <= n
  {
    if n == 0 then 0 else FlagCount(m, i, n - 1) + (if m.isConst(i, n - 1) then 1 else 0)
  }

  /** The number of set constant flags of the slots lo .. hi-1, n flags each. */
  function ConstCount(m: Model, lo: nat, hi: nat, n: nat): nat
    decreases hi - lo
  {
    if lo >= hi then 0 else FlagCount(m, lo, n) + ConstCount(m, lo + 1, hi, n)
  }

  /**
    `AtMost(..., max_const)` over the constant flags of all instruction slots;
    the output slot is exempt, and there is no constraint without instructions.
   */
  predicate WithinConstLimit(l: Layout, m: Model, maxConst: Option<nat>)
  {
    maxConst.None? || l.nInsns == 0 ||
    ConstCount(m, l.nInputs, l.OutInsn(), l.maxArity) <= maxConst.value
  }

  /**
    With a non-empty `const_set`, the constant-value variable of every
    operand position that some operator's input types reach is one of the
    constants of its sort, for every slot from the first instruction on.
   */
  predicate ConstsFromSet(l: Layout, ops: seq<Func>, m: Model, constSet: set<(Sort, int)>)
  {
    constSet == {} ||
    forall i: nat, j: nat, k: nat ::
      l.nInputs <= i < l.Length() && j < |ops| && k < Min(|ops[j].inTypes|, l.Arity(i)) ==>
        (ops[j].inTypes[k], m.constVal(i, k, ops[j].inTypes[k])) in constSet
  }

  // ---------------------------------------------------------------------------
  // add_constr_ty

  /** The selected operator fixes the result type and the operand types of its slot. */
  predicate OpTypes(l: Layout, ops: seq<Func>, m: Model)
    requires OpsInRange(l, ops, m)
  {
    forall i: nat :: l.nInputs <= i < l.OutInsn() ==>
      m.resType(i) == Selected(l, ops, m, i).outType &&
      forall k: nat :: k < Min(Selected(l, ops, m, i).Arity(), l.maxArity) ==>
        m.opndType(i, k) == Selected(l, ops, m, i).inTypes[k]
  }

  /** An operand that refers to slot `other` has the result type of `other`. */
  predicate OperandTypes(l: Layout, m: Model)
  {
    forall i: nat, k: nat ::
      l.nInputs <= i < l.Length() && k < l.Arity(i) && !m.isConst(i, k) && m.opnd(i, k) < i ==>
        m.opndType(i, k) == m.resType(m.opnd(i, k))
  }

  /** The type constraints; none are emitted when the operators mention one type only. */
  predicate TypeRules(l: Layout, ops: seq<Func>, inTys: seq<Sort>, outTys: seq<Sort>, m: Model)
    requires OpsInRange(l, ops, m) && |inTys| == l.nInputs && |outTys| == l.nOutputs
  {
    |TypesOf(ops)| <= 1 ||
    (OpTypes(l, ops, m) &&
     (forall i: nat :: i < l.nInputs ==> m.resType(i) == inTys[i]) &&
     (forall k: nat :: k < l.nOutputs ==> m.opndType(l.OutInsn(), k) == outTys[k]) &&
     OperandTypes(l, m))
  }

  // ---------------------------------------------------------------------------
  // add_constr_opt

  /** `opnd_set(insn)`: the length-bit mask with bit j set when some operand of slot i is j. */
  function OpndMask(l: Layout, m: Model, i: nat): (r: nat)
    requires i < l.Length()
  {
    ToNat(OpndBits(l, m, i))
  }

  function OpndBits(l: Layout, m: Model, i: nat): (r: Bits)
    requires i < l.Length()
    ensures |r| == l.Length()
    ensures forall j :: 0 <= j < |r| ==> (r[j] <==> exists k: nat :: k < l.Arity(i) && m.opnd(i, k) == j)
  {
    seq(l.Length(), j => exists k: nat :: k < l.Arity(i) && m.opnd(i, k) == j)
  }

  /** Consecutive instructions have non-decreasing operand masks. */
  predicate InsnOrder(l: Layout, m: Model)
  {
    forall i: nat :: l.nInputs <= i && i + 1 < l.OutInsn() ==> OpndMask(l, m, i) <= OpndMask(l, m, i + 1)
  }

  /** The number of pairs in `zip(opnds[:op.arity - 1], opnds[1:])` for n operands. */
  function CommPairs(arity: nat, n: nat): nat
  {
    Min(SliceEnd(arity - 1, n), if n >= 1 then n - 1 else 0)
  }

  /** The operands of a commutative operator are in non-decreasing order. */
  predicate CommutativeSorted(l: Layout, ops: seq<Func>, m: Model)
    requires OpsInRange(l, ops, m)
  {
    forall i: nat :: l.nInputs <= i < l.OutInsn() && Selected(l, ops, m, i).commutative ==>
      forall k: nat :: k < CommPairs(Selected(l, ops, m, i).Arity(), l.maxArity) ==>
        m.opnd(i, k) <= m.opnd(i, k + 1)
  }

  /**
    The constant rule of one slot: a binary commutative operator has a
    non-constant first operand; any other operator except `exempt` has a
    non-constant operand among its first `arity` operands.
   */
  predicate ConstRuleAt(l: Layout, op: Func, m: Model, i: nat, exempt: Option<Func>)
  {
    if op.Arity() == 2 && op.commutative then !m.isConst(i, 0)
    else exempt == Some(op) || exists k: nat :: k < Min(op.Arity(), l.maxArity) && !m.isConst(i, k)
  }

  predicate ConstOperands(l: Layout, ops: seq<Func>, m: Model, exempt: Option<Func>)
    requires OpsInRange(l, ops, m)
  {
    forall i: nat :: l.nInputs <= i < l.OutInsn() ==> ConstRuleAt(l, Selected(l, ops, m, i), m, i, exempt)
  }

  /**
    No common subexpressions, as emitted: two instructions with the same
    operator differ in at least one operand variable.  The operand variables
    of constant operands take part in the comparison, although they do not
    affect the program (see NoCseLetsDuplicatesThrough).
   */
  predicate NoCseAsWritten(l: Layout, m: Model)
  {
    forall i: nat, o: nat :: l.nInputs <= o < i < l.OutInsn() && m.op(i) == m.op(o) ==>
      exists k: nat :: k < l.maxArity && m.opnd(i, k) != m.opnd(o, k)
  }

  /**
    No common subexpressions, as intended: two instructions with the same
    operator differ in at least one of the operands the program gets.
   */
  predicate NoCse(l: Layout, ops: seq<Func>, m: Model)
    requires OpsInRange(l, ops, m)
  {
    forall i: nat, o: nat :: l.nInputs <= o < i < l.OutInsn() && m.op(i) == m.op(o) ==>
      ArgsOf(m, i, Selected(l, ops, m, i).inTypes, l.maxArity) !=
      ArgsOf(m, o, Selected(l, ops, m, o).inTypes, l.maxArity)
  }

  /** Some slot after p has an operand at all (otherwise `Or` of nothing is not emitted). */
  predicate HasLaterOperands(l: Layout, p: nat)
  {
    exists c: nat :: p < c < l.Length() && l.Arity(c) > 0
  }

  /**
    No dead code, as emitted: every slot from the first instruction on is a
    non-constant operand of a later slot, where every one of the `maxArity`
    operand variables counts, including those beyond the selected
    operator's arity (see NoDeadCodeLetsDeadInsnThrough).
   */
  predicate NoDeadCodeAsWritten(l: Layout, m: Model)
  {
    forall p: nat :: l.nInputs <= p < l.Length() && HasLaterOperands(l, p) ==>
      exists c: nat, k: nat :: p < c < l.Length() && k < l.Arity(c) && m.opnd(c, k) == p && !m.isConst(c, k)
  }

  /** The number of operands slot c really uses: the selected arity, or all outputs. */
  function UsedArity(l: Layout, ops: seq<Func>, m: Model, c: nat): (r: nat)
    requires OpsInRange(l, ops, m) && l.nInputs <= c < l.Length()
    ensures r <= l.Arity(c)
  {
    if c < l.OutInsn() then Min(Selected(l, ops, m, c).Arity(), l.maxArity) else l.nOutputs
  }

  /** No dead code, as intended: the use must be one of the operands the program gets. */
  predicate NoDeadCode(l: Layout, ops: seq<Func>, m: Model)
    requires OpsInRange(l, ops, m)
  {
    forall p: nat :: l.nInputs <= p < l.Length() && HasLaterOperands(l, p) ==>
      exists c: nat, k: nat :: p < c < l.Length() && k < UsedArity(l, ops, m, c) &&
        m.opnd(c, k) == p && !m.isConst(c, k)
  }

  /** Once an instruction uses the operator at position idIx, every later one does. */
  predicate IdLast(l: Layout, m: Model, idIx: nat)
  {
    forall i: nat, f: nat :: l.nInputs <= i < f < l.OutInsn() && m.op(i) == idIx ==> m.op(f) == idIx
  }

  predicate HasConstFlag(m: Model, i: nat, n: nat)
  {
    exists k: nat :: k < n && m.isConst(i, k)
  }

  /** An identity with a constant operand has no identity before it. */
  predicate OnlyFirstIdConst(l: Layout, m: Model, idIx: nat)
  {
    forall i: nat, f: nat ::
      l.nInputs <= f < i < l.OutInsn() && m.op(i) == idIx && HasConstFlag(m, i, l.maxArity) ==> m.op(f) != idIx
  }

  // ---------------------------------------------------------------------------
  // The complete constraint sets

  /**
    Everything `SynthN` adds to its goal before the first sample, as it is
    emitted, with the identity operator last in `ops`.
   */
  predicate SynthNRules(l: Layout, ops: seq<Func>, inTys: seq<Sort>, outTys: seq<Sort>, opts: Options, m: Model)
    requires |ops| >= 1 && |inTys| == l.nInputs && |outTys| == l.nOutputs
  {
    OpsInRange(l, ops, m) &&
    Acyclic(l, m) &&
    UnusedPinned(l, ops, m) &&
    WithinConstLimit(l, m, opts.maxConst) &&
    ConstsFromSet(l, ops, m, opts.constSet) &&
    TypeRules(l, ops, inTys, outTys, m) &&
    (opts.insnOrder ==> InsnOrder(l, m)) &&
    (opts.commutative ==> CommutativeSorted(l, ops, m)) &&
    (opts.constOpt ==> ConstOperands(l, ops, m, Some(ops[|ops| - 1]))) &&
    (opts.noCse ==> NoCseAsWritten(l, m)) &&
    (opts.noDeadCode ==> NoDeadCodeAsWritten(l, m)) &&
    IdLast(l, m, |ops| - 1) &&
    OnlyFirstIdConst(l, m, |ops| - 1)
  }

  /**
    The same constraint set with the no-CSE and no-dead-code rules
    corrected to speak of the operands the program gets.
   */
  predicate SynthNRulesCorrected(l: Layout, ops: seq<Func>, inTys: seq<Sort>, outTys: seq<Sort>, opts: Options, m: Model)
    requires |ops| >= 1 && |inTys| == l.nInputs && |outTys| == l.nOutputs
  {
    OpsInRange(l, ops, m) &&
    Acyclic(l, m) &&
    UnusedPinned(l, ops, m) &&
    WithinConstLimit(l, m, opts.maxConst) &&
    ConstsFromSet(l, ops, m, opts.constSet) &&
    TypeRules(l, ops, inTys, outTys, m) &&
    (opts.insnOrder ==> InsnOrder(l, m)) &&
    (opts.commutative ==> CommutativeSorted(l, ops, m)) &&
    (opts.constOpt ==> ConstOperands(l, ops, m, Some(ops[|ops| - 1]))) &&
    (opts.noCse ==> NoCse(l, ops, m)) &&
    (opts.noDeadCode ==> NoDeadCode(l, ops, m)) &&
    IdLast(l, m, |ops| - 1) &&
    OnlyFirstIdConst(l, m, |ops| - 1)
  }

  /**
    The structural constraints `SynthConstants` adds to its goal at
    construction, as it emits them: no acyclicity, no constant limit, no
    identity rules, the constant rule for every operator, the no-CSE and
    no-dead-code rules in their emitted form, and the `const_set`
    restriction on the constant variables without an instance, which are
    the `constVal` of this model.
   */
  predicate ConstantsStageRules(l: Layout, ops: seq<Func>, inTys: seq<Sort>, outTys: seq<Sort>, opts: Options, m: Model)
    requires |inTys| == l.nInputs && |outTys| == l.nOutputs
  {
    OpsInRange(l, ops, m) &&
    UnusedPinned(l, ops, m) &&
    ConstsFromSet(l, ops, m, opts.constSet) &&
    TypeRules(l, ops, inTys, outTys, m) &&
    (opts.insnOrder ==> InsnOrder(l, m)) &&
    (opts.commutative ==> CommutativeSorted(l, ops, m)) &&
    (opts.constOpt ==> ConstOperands(l, ops, m, None)) &&
    (opts.noCse ==> NoCseAsWritten(l, m)) &&
    (opts.noDeadCode ==> NoDeadCodeAsWritten(l, m))
  }

  // ---------------------------------------------------------------------------
  // create_prg

  /** `prep_opnds` for one operand: the constant's value or the referenced line. */
  function ArgOf(m: Model, i: nat, k: nat, ty: Sort): Arg
  {
    if m.isConst(i, k) then Arg(true, m.constVal(i, k, ty)) else Arg(false, m.opnd(i, k))
  }

  /** `prep_opnds(insn, tys)`: one operand per type, at most n of them (the zip with the operand variables). */
  function ArgsOf(m: Model, i: nat, tys: seq<Sort>, n: nat): (r: seq<Arg>)
    ensures |r| == Min(|tys|, n)
    ensures forall k :: 0 <= k < |r| ==> r[k] == ArgOf(m, i, k, tys[k])
  {
    seq(Min(|tys|, n), k requires 0 <= k < Min(|tys|, n) => ArgOf(m, i, k, tys[k]))
  }

  /**
    The operator table of a synthesizer: `ops` are distinct, each has an
    original operator in `origOps` of the same shape, and different
    operators have different originals.
   */
  predicate OpsTable(ops: seq<Func>, origOps: map<Func, Func>)
  {
    Distinct(ops) &&
    (forall op :: op in ops ==> op in origOps && SameShape(origOps[op], op)) &&
    (forall a, b :: a in ops && b in ops && origOps[a] == origOps[b] ==> a == b)
  }

  /** The instruction that slot i holds in the program read off m. */
  function InsnAt(l: Layout, ops: seq<Func>, origOps: map<Func, Func>, m: Model, i: nat): Insn
    requires OpsInRange(l, ops, m) && OpsTable(ops, origOps) && l.nInputs <= i < l.OutInsn()
  {
    Insn(origOps[Selected(l, ops, m, i)], ArgsOf(m, i, Selected(l, ops, m, i).inTypes, l.maxArity))
  }

  /** The program `create_prg` reads off a model, in terms of the original operators. */
  function ProgramOf(l: Layout, ops: seq<Func>, origOps: map<Func, Func>, outTys: seq<Sort>, m: Model): (p: Prg)
    requires OpsInRange(l, ops, m) && OpsTable(ops, origOps) && |outTys| == l.nOutputs
    ensures |p.insns| == l.nInsns && |p.outputs| == l.nOutputs
    ensures forall j :: 0 <= j < l.nInsns ==> p.insns[j] == InsnAt(l, ops, origOps, m, l.nInputs + j)
    ensures p.outputs == ArgsOf(m, l.OutInsn(), outTys, l.nOutputs)
  {
    Prg(seq(l.nInsns, j requires 0 <= j < l.nInsns => InsnAt(l, ops, origOps, m, l.nInputs + j)),
        ArgsOf(m, l.OutInsn(), outTys, l.nOutputs))
  }
}
