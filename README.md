# CEGIS synthesizer bookkeeping, modelled in Dafny

This project models the parts of a counterexample-guided (CEGIS) program
synthesizer that do not depend on the SMT solver, and proves properties of
them. The synthesizer searches for straight-line programs over a library of
operators.

A program is a list of instructions, each an operator with operands, plus a
list of output operands. An operand is either a constant or a reference to an
earlier line: the inputs come first, then the instructions.

## What is modelled

- **Slot layout and pruning rules of `SynthN`** (`synth_n.py`).
  - The layout comes first. There are `n_inputs` input slots, then `n_insns`
    instruction slots, then one output pseudo-instruction. Each slot has a
    fixed arity.
  - The solver's model is a `Model` datatype: one total function per family
    of solver variables (operator, operand line, constant flag, constant
    value, result type, operand type).
  - Each `add_constr_*` rule becomes a predicate over the layout, the
    operators and a `Model`. These are acyclicity, pinning of unused
    operands, the constant limit, `const_set`, the type rules, instruction
    order, commutative order, the constant rule, no CSE, no dead code, and
    the two identity rules.
  - `create_prg` is a method, proved against the function `ProgramOf`.
  - Lemmas show that every program read off a model of the rules as
    emitted has the promised shape. It is acyclic, its commutative operands
    are sorted and its constant operands restricted. It is well typed when
    several sorts occur, and its identities sit at the end.
  - The no-CSE and no-dead-code rules as emitted let duplicate and unused
    instructions through (see "## Findings"). Only the corrected forms of
    these two rules give a program free of dead code and duplicates, and
    that is proved about the corrected goal separately.
- **`EnumBase` and `BitVecEnum`** are classes whose constructors fill the
  item/constructor dictionaries. Lemmas show the dictionaries are inverse
  bijections, that items get the ids 0..n-1, and that the range constraint
  admits exactly those ids.
- **The constant-refinement stage `SynthConstants`**
  (`synth_constants_cegis_stage.py`).
  - The constructor normalises the operator collection and builds
    `orig_ops`, `op_from_orig` and `op_freqs`.
  - `get_var` naming is modelled by a structured `Var` datatype. The names
    of constant variables and of operand values are proved injective. Names
    from different families can coincide, and then only the sort in `Key()`
    tells them apart.
  - `write_constraints`, the sample loop of `synth_with_new_samples`, and
    `prg_from_changed_model` are modelled in two layers. The methods mutate
    the goal (`synth: seq<Constraint>`) and the sample counter. They are
    proved against recursive specification functions. Lemmas then say which
    constant slots the returned dictionary holds, and that the rebuilt
    program changes only constant values.
  - The methods run `write_constraints` as written, with its instruction
    loop bound and its operand-sort lookup. The specification functions take
    a variant, so the same lemmas also describe the corrected loop (see
    "## Findings"). Rebuilding is proved to succeed as written when the
    program has a single output.
  - The structural goal of the stage is the predicate `Admits`, required of
    the solver's answer. It constrains only variables without an instance,
    which `write_constraints` never mentions.
  - `run_synth` and `SynthN`'s `synth` search sizes in order. Both are the
    method `Search.Synth`, proved against the reference `FirstFound`.
- **The Hacker's Delight benchmark helpers** (`hackdel.py`).
  - Bit vectors are little-endian `seq<bool>` of any width. Addition and
    subtraction use a ripple-carry adder, proved modular against the
    unsigned value.
  - `popcount` and `nlz` are loop methods proved against reference
    functions. `is_power_of_two` is characterised exactly: 0 or a shifted 1.
    `sol` is a method.
  - The identities behind the specifications of `test_p01`–`test_p08` are
    lemmas stated bit by bit.

The solver's answer is always a parameter. For `SynthN` it is an
`Option<Model>`. For the constants stage it is an `Option<(Model, Answer)>`: the
structural model together with an assignment of integer values to named
variables, tied together by `Admits`. The specification's output
values for the samples are the parameter `outVals`.

## Model

| member | source | states |
|---|---|---|
| Programs.Translate | synth_n.py:90 | `op.translate(ctx)` moves the operator to context `ctx` and changes nothing else about it |
| Programs.TranslateBack | synth_n.py:90 | translating back to the original context gives the original operator |
| Programs.TranslateInjective | synth_n.py:90 | operators of one context have equal translations exactly when they are equal |
| Programs.TranslateAllDistinct | synth_n.py:90-91 | distinct operators of one context stay distinct when all are moved to another context |
| Programs.LayoutFor | synth_n.py:95-101 | inputs and outputs counted from the specification, `out_insn = n_inputs + n_insns`, `length = out_insn + 1`, and `max_arity` bounds every operator's arity and is attained |
| Programs.OpInsnSlots | synth_n.py:183-184 | `is_op_insn(i)` holds exactly for `n_inputs <= i < out_insn`; arity is `max_arity` there, 0 for inputs, `n_outputs` at the output slot |
| Programs.MaxArity | synth_n.py:101 | `max(op.arity for op in ops)`: an upper bound on every arity that some operator reaches |
| Programs.TypesOf | synth_n.py:108 | the set of sorts is exactly the input and output sorts of the operators |
| Programs.Dedup | synth_n.py:90-91 | the keys of a dictionary built from a list: every element occurs, nothing else, without repeats |
| Programs.DedupOfDistinct | synth_n.py:91 | a list without duplicates is its own key list, in order |
| Programs.DedupFirstOrder | synth_n.py:90-91 | the key list keeps first occurrences in list order: of two keys, the earlier one occurs first earlier in the list |
| Programs.PyIndex | synth_constants_cegis_stage.py:428 | Python list indexing: defined for `-len <= i < len`, negative indices count from the end, otherwise IndexError |
| Programs.NatToStringInjective | synth_constants_cegis_stage.py:117 | different slot and operand numbers print differently inside variable names |
| Enums.EnumBase.constructor | synth_n.py:10-14 | the loop over `zip(items, cons)` fills `item_to_cons` and `cons_to_item` as the zip dictionaries, last occurrence winning |
| Enums.ZipMapAt | synth_n.py:13 | with distinct keys, key `ks[i]` maps to `vs[i]` |
| Enums.ZipMapSize | synth_n.py:13-14 | with distinct keys the dictionary has one entry per key |
| Enums.ZipMapInverse | synth_n.py:13-14 | distinct items and distinct constructors give mutually inverse dictionaries |
| Enums.EnumBaseBijection | synth_n.py:9-17 | both dictionaries have `len(cons)` entries and invert each other |
| Enums.ZipMapGraph | synth_n.py:90 | when every value is a function of its key, the dictionary maps every key to that function's value, even with repeated keys |
| Enums.Ids | synth_n.py:39 | the ids 0..n-1, distinct and in order |
| Enums.BitVecEnum.constructor | synth_n.py:37-39 | the items are paired with the ids 0..n-1 in list order |
| Enums.BitVecEnum.FromModelVal | synth_n.py:41-42 | `get_from_model_val` returns the item of a known id and raises KeyError for any other id |
| Enums.BitVecEnumIds | synth_n.py:36-45 | item `items[j]` gets id `j`, the range constraint admits exactly the ids below n, and every id below n decodes to its item |
| Enums.BitVecEnumRoundTrip | synth_n.py:39-42 | decoding the id of an item gives the item back, and that id satisfies the range constraint |
| Synthesis.IdFunc | synth_n.py:86 | the added `id` has a single operand of the first output's sort and lives in the specification's context |
| Synthesis.OrigOpsTable | synth_n.py:90-91 | `orig_ops` is an injective table from the distinct translated operators back to their originals |
| Synthesis.NewOpsTable | synth_n.py:86-93 | after adding `id`, the operator list is non-empty, every operator lives in the new context, and each maps back to its original |
| Synthesis.NewTablesValid | synth_n.py:86-107 | the tables the constructor builds satisfy the invariant that the constructor's asserts check |
| Synthesis.IdIsAddedIdentity | synth_n.py:86-93 | when the user's operators lack the identity, `ops[-1]` is the translated identity and its original is the identity |
| Synthesis.SynthN.constructor | synth_n.py:82-123 | operators, `id`, layout and sample counter as `__init__` sets them, with the class invariant established |
| Synthesis.SynthN.PrepOpnds | synth_n.py:413-420 | one operand per operand sort, up to the slot's arity: the constant's value when its flag is set, else the referenced line |
| Synthesis.SynthN.CreatePrg | synth_n.py:412-428 | the program read off the model: one instruction per instruction slot with the original of the selected operator, then the output operands |
| Synthesis.SynthN.SynthWithNewSamples | synth_n.py:442-477 | the sample counter grows by the number of samples; given an answer admitted by the goal as emitted, the program is the model's and it is well shaped; without an answer, None |
| Synthesis.AdmittedStructure | synth_n.py:199-217 | a model of the rules gives an acyclic program whose operand counts match arities, with identities only at the end and only the first identity taking a constant |
| Synthesis.AdmittedNoWaste | synth_n.py:313-329 | corrected half: under the corrected no-dead-code and no-CSE rules, the program has no unused and no repeated instruction |
| Synthesis.AdmittedOperands | synth_n.py:293-311 | with the options on, commutative operands are sorted and every non-`id` operator has a non-constant operand; with several sorts, every reference is well typed |
| Synthesis.AdmittedConstants | synth_n.py:219-236 | constants come from `const_set` when it is given, and the instructions hold at most `max_const` constants |
| Synthesis.AdmittedIsWellShaped | synth_n.py:132-136 | every program read off a model of the goal as emitted is well shaped: all properties above except the two no-waste ones |
| Synthesis.CorrectedIsWellShaped | synth_n.py:132-136 | corrected half: a model of the corrected goal gives a well-shaped program without unused or repeated instructions |
| SynthRules.OpndBits | synth_n.py:280-287 | bit j of `opnd_set(insn)` is set exactly when some operand of the slot refers to line j |
| ProgramShape.ProgramOfAcyclic | synth_n.py:202-206 | every non-constant operand of the program refers to an input or an earlier instruction |
| ProgramShape.ProgramOfNoDeadCode | synth_n.py:322-329 | under the corrected rule, every instruction's result is a non-constant operand of a later instruction or an output |
| ProgramShape.ProgramOfCommutativeSorted | synth_n.py:296-300 | the reference (non-constant) operands of every commutative instruction are in non-decreasing order |
| ProgramShape.ProgramOfConstOperands | synth_n.py:302-311 | a binary commutative instruction has a non-constant first operand, and every other operator except the exempt `id` has a non-constant operand |
| ProgramShape.ProgramOfIdAtEnd | synth_n.py:331-342 | once an instruction is `id`, every later instruction is `id` |
| ProgramShape.ProgramOfConstIdFirst | synth_n.py:344-356 | an `id` with a constant operand has no earlier `id` |
| ProgramShape.ProgramOfNoDuplicates | synth_n.py:313-320 | under the corrected rule, no two instructions are equal |
| ProgramShape.SlotTypeIsResType | synth_n.py:258-260 | under the type rules, the sort of a line is the result-type variable of its slot |
| ProgramShape.InsnOperandsTyped | synth_n.py:248-273 | every reference of an instruction operand points to a line of the operator's operand sort |
| ProgramShape.OutputsTyped | synth_n.py:262-273 | every output reference points to a line of the output's sort |
| ProgramShape.ProgramOfTyped | synth_n.py:238-274 | with more than one sort in play, every reference in the program is well typed |
| ProgramShape.ProgramOfConstsFrom | synth_n.py:227-236 | every constant operand of an instruction, and every output constant of an operand sort, is an allowed constant of its sort |
| ProgramShape.ProgramConstCount | synth_n.py:222-225 | the program's instruction constants are at most the set constant flags of the instruction slots |
| ProgramShape.ProgramOfConstLimit | synth_n.py:219-225 | with `max_const` given, the instructions hold at most `max_const` constants, outputs exempt |
| ProgramShape.OpndMaskBounds | synth_n.py:280-287 | the operand mask of a slot lies between 2^h and 2^(h+1), where h is its highest operand line |
| ProgramShape.InsnOrderSortsByHighestOperand | synth_n.py:289-291 | under the instruction-order rule, the highest operand line never decreases from one instruction to the next |
| ConstantsSpec.Normalize | synth_constants_cegis_stage.py:53-56 | empty collection becomes `dummy` with frequency 0; a list maps each of its operators to `OpFreq.MAX`; a dictionary stays as it is |
| ConstantsSpec.NormalizeContext | synth_constants_cegis_stage.py:48-56 | all operators of the normalised dictionary live in one context, the dummy's or the user's |
| ConstantsSpec.StageTablesInverse | synth_constants_cegis_stage.py:58-60 | `op_from_orig` is the inverse of `orig_ops`, both with one entry per operator |
| ConstantsSpec.StageTablesEntries | synth_constants_cegis_stage.py:58-62 | each translated operator maps back to its original, each original to its translation, and each gets its original's frequency |
| ConstantsSpec.OrigOpsShape | synth_constants_cegis_stage.py:58 | each translated operator's original has its shape and translates to it |
| ConstantsSpec.OrigOpsInjective | synth_constants_cegis_stage.py:58-60 | different translated operators have different originals |
| ConstantsSpec.OpFromOrigInOps | synth_constants_cegis_stage.py:60-63 | every value of `op_from_orig` is one of `self.ops` |
| ConstantsSpec.StageTablesOps | synth_constants_cegis_stage.py:58-63 | `ops` and `orig_ops` form an injective operator table |
| ConstantsSpec.StageTablesDomains | synth_constants_cegis_stage.py:58-77 | the tables' keys are the translated operators, all in the stage's context |
| ConstantsSpec.StageTablesFacts | synth_constants_cegis_stage.py:53-77 | all the table facts above at once, for the normalised dictionary |
| ConstantsStage.StageTablesOf | synth_constants_cegis_stage.py:53-63 | the constructor's table building yields exactly those tables |
| ConstantsStage.SynthConstants.constructor | synth_constants_cegis_stage.py:48-94 | operators normalised and translated in order, tables inverse, same layout arithmetic as `SynthN`, no samples, empty goal |
| ConstantsSpec.ProducerTypeAsWritten | synth_constants_cegis_stage.py:428 | the source's lookup of an operand's sort via `prg.insns[value - n_inputs]`, IndexError included |
| ConstantsSpec.ProducerType | synth_constants_cegis_stage.py:428 | corrected: an input line has the input's sort, an instruction line its operator's output sort, any other line raises |
| ConstantsSpec.OperandVarsOkAt | synth_constants_cegis_stage.py:420-430 | the operand loop succeeds exactly when every operand can be written |
| ConstantsSpec.OperandVarsListAt | synth_constants_cegis_stage.py:420-430 | on success each operand gets its variable in order: the slot's `fa` constant or the producer's result |
| ConstantsSpec.OperandVarsDictAt | synth_constants_cegis_stage.py:422-425 | the operand loop adds to `const_set` exactly the constant operands of the slot, each with its `fa` constant variable |
| ConstantsSpec.OperandVarsOk | synth_constants_cegis_stage.py:420-430 | the whole operand loop succeeds exactly when every operand can be written |
| ConstantsSpec.OperandVarsVars | synth_constants_cegis_stage.py:420-430 | on success the whole loop gives every operand its variable |
| ConstantsSpec.OperandVarsSlots | synth_constants_cegis_stage.py:422-425 | the whole loop extends `const_set` with exactly the slot's constant operands |
| ConstantsSpec.InsnLoopCount | synth_constants_cegis_stage.py:409 | corrected, the loop visits every instruction; as written, `n_insns + 1 - n_outputs` of them |
| ConstantsSpec.InsnsConstraints | synth_constants_cegis_stage.py:409-439 | one semantics constraint per instruction visited |
| ConstantsSpec.OutVars | synth_constants_cegis_stage.py:140-142 | one output value variable per output |
| ConstantsSpec.Equalities | synth_constants_cegis_stage.py:452-453 | `operand == val` along the zip, as long as the shorter list |
| ConstantsSpec.InsnsConstraintsOk | synth_constants_cegis_stage.py:409-439 | the instruction loop succeeds exactly when every visited instruction can be written |
| ConstantsSpec.InsnsConstraintsStep | synth_constants_cegis_stage.py:409-439 | one more iteration appends the instruction's semantics and extends the dictionary |
| ConstantsSpec.InsnsConstraintsSem | synth_constants_cegis_stage.py:433-439 | constraint j is the semantics of instruction j's operator between its result and its operand variables |
| ConstantsSpec.SlotsStep | synth_constants_cegis_stage.py:420-425 | the dictionary after one more instruction describes the constants of one more instruction |
| ConstantsSpec.InsnsConstraintsSlots | synth_constants_cegis_stage.py:409-431 | after the loop the dictionary's keys are exactly the constant operand slots of the visited instructions, each with its `fa` variable |
| ConstantsSpec.ConstraintsOk | synth_constants_cegis_stage.py:395-462 | `write_constraints` succeeds exactly when every visited instruction and every output can be written |
| ConstantsSpec.ConstraintsParts | synth_constants_cegis_stage.py:441-453 | its constraints are the instruction constraints followed by the output equalities |
| ConstantsSpec.ConstraintsSem | synth_constants_cegis_stage.py:395-453 | the constraint list, element by element: instruction semantics, then each output operand equal to its output value variable |
| ConstantsSpec.OutputEqualities | synth_constants_cegis_stage.py:452-453 | the output equalities pair each output operand's variable with the instance's output value variable |
| ConstantsSpec.ConstraintsSlots | synth_constants_cegis_stage.py:404-462 | the returned dictionary holds exactly the constant slots of instructions and outputs, each with its `fa` variable |
| ConstantsSpec.SlotDictUnique | synth_constants_cegis_stage.py:462 | that description fixes the dictionary |
| ConstantsSpec.ConstSlotsSameForAllInstances | synth_constants_cegis_stage.py:529-530 | the dictionary is the same for every instance, as the comment there says, and so is success |
| ConstantsSpec.OperandVarsErrStays | synth_constants_cegis_stage.py:420-430 | once an operand raises, the operand loop raises the same exception |
| ConstantsSpec.InsnsErrStays | synth_constants_cegis_stage.py:409-439 | once an instruction raises, the instruction loop raises the same exception |
| ConstantsStage.InputAssigns | synth_constants_cegis_stage.py:466-470 | `res == val` for every input of the sample |
| ConstantsStage.OutputAssigns | synth_constants_cegis_stage.py:471-473 | `out == val` for every output value |
| ConstantsStage.Blocks | synth_constants_cegis_stage.py:526-542 | sample i of a round is written under instance `n_samples + i` by `write_constraints` as written |
| ConstantsStage.RoundFromOk | synth_constants_cegis_stage.py:526-542 | the sample loop succeeds exactly when it has no sample or `write_constraints` as written succeeds on the program |
| ConstantsStage.RoundFromDict | synth_constants_cegis_stage.py:529-530 | after the loop the dictionary is that of `write_constraints` as written, or empty with no samples |
| ConstantsStage.RoundFromExtends | synth_constants_cegis_stage.py:526-542 | the loop only appends to the goal |
| ConstantsStage.RoundContinues | synth_constants_cegis_stage.py:526-542 | once `write_constraints` as written has succeeded for one sample, the rest of the round succeeds |
| ConstantsStage.RoundFailsWhole | synth_constants_cegis_stage.py:526-542 | a sample that `write_constraints` as written cannot write, IndexError at :428 included, makes the round raise |
| ConstantsStage.RoundThenRefined | synth_constants_cegis_stage.py:526-560 | after a round with a sample, with a single output, an answer assigning every recorded variable rebuilds the program, changing only constants |
| ConstantsStage.OperandVarsOf | synth_constants_cegis_stage.py:420-430 | the operand loop method computes the operand loop specification as written, producer sorts looked up at `prg.insns[value - n_inputs]` |
| ConstantsStage.InsnsConstraintsOf | synth_constants_cegis_stage.py:409-439 | the instruction loop method, over `range(n_inputs, length - n_outputs)`, computes the instruction loop specification as written |
| ConstantsStage.EqualitiesOf | synth_constants_cegis_stage.py:452-453 | the zip loop computes the equalities |
| ConstantsStage.SynthConstants.SetPrg | synth_constants_cegis_stage.py:392-393 | stores the program and nothing else |
| ConstantsStage.SynthConstants.WriteConstraints | synth_constants_cegis_stage.py:395-462 | as written: on success, appends the constraints to the goal and returns the dictionary; on an exception, the goal is unchanged |
| ConstantsStage.SynthConstants.AddConstraints | synth_constants_cegis_stage.py:459-460 | appends the constraints to the goal in order |
| ConstantsStage.SynthConstants.AddSampleConstraints | synth_constants_cegis_stage.py:531-541 | the sample's input and output assignments, or the specification formula when the specification is not deterministic and total |
| ConstantsStage.SynthConstants.AddSample | synth_constants_cegis_stage.py:530-541 | one iteration: the program's constraints as written under the instance, then the sample's |
| ConstantsStage.SynthConstants.AddSamples | synth_constants_cegis_stage.py:526-542 | the loop's goal, counter and dictionary are those of the round specification, built from `write_constraints` as written |
| ConstantsStage.SynthConstants.SynthWithNewSamples | synth_constants_cegis_stage.py:512-566 | given an answer admitted by the structural goal: the round, then None without an answer, or the stored program rebuilt with the answer's constants, KeyError included |
| ConstantsStage.AdmittedConstsInstanceless | synth_constants_cegis_stage.py:187-196 | an answer admitted by the structural goal meets `const_set` on its constant variables without an instance |
| ConstantsStage.SynthConstants.PrgFromChangedModel | synth_constants_cegis_stage.py:485-510 | the method computes the rebuilding specification, KeyError included |
| ConstantsStage.SynthConstants.ChangedArgsOf | synth_constants_cegis_stage.py:495-499 | the operand loop computes the operand rebuilding specification |
| Refinement.RefinedArg | synth_constants_cegis_stage.py:495-499 | an operand is rebuilt exactly when it is a reference or its constant is recorded and has a value; references are kept, constants get the answer's value, and the constant flag is kept |
| Refinement.ChangedArgsFacts | synth_constants_cegis_stage.py:494-499 | the operand loop succeeds exactly when every operand can be rebuilt, and returns them rebuilt in order |
| Refinement.ChangedArgsAll | synth_constants_cegis_stage.py:494-499 | the same for all operands of a slot |
| Refinement.ChangedInsnsOk | synth_constants_cegis_stage.py:492-500 | the instruction loop succeeds exactly when every constant can be rebuilt |
| Refinement.ChangedInsnsShape | synth_constants_cegis_stage.py:492-500 | each rebuilt instruction keeps its operator and gets its rebuilt operands |
| Refinement.ChangedPrgFacts | synth_constants_cegis_stage.py:485-510 | succeeds exactly when every constant is recorded and answered; then counts, operators, flags and references are kept and only constants change |
| Refinement.ChangedPrgIdentity | synth_constants_cegis_stage.py:485-510 | an answer giving every constant its old value rebuilds the old program |
| Refinement.SlotDictNamesAllConsts | synth_constants_cegis_stage.py:404-462 | a dictionary of that description names every constant of a program of the stage's size |
| Refinement.WrittenNamesAllConsts | synth_constants_cegis_stage.py:409-447 | `write_constraints` records every constant of the program: always once corrected, and as written when there is a single output |
| Refinement.WrittenThenRefined | synth_constants_cegis_stage.py:530-560 | an answer that assigns every recorded variable rebuilds the program, changing only constants: always once corrected, and as written when there is a single output |
| Refinement.ChangedArgsErrStays | synth_constants_cegis_stage.py:497 | once an operand raises KeyError, the loop raises the same |
| Refinement.ChangedInsnsErrStays | synth_constants_cegis_stage.py:497 | once an instruction raises KeyError, the loop raises the same |
| ConstSet.ConstsFromSetIsInstanceless | synth_constants_cegis_stage.py:187-196 | the `const_set` rule as written restricts the constant variables without an instance |
| ConstSet.RefinedConstsAllowed | synth_constants_cegis_stage.py:187-196 | corrected: when the restriction is on the `fa` variables, every refined constant is an allowed constant of its sort |
| VarNames.VarName | synth_constants_cegis_stage.py:116-119 | `|name_instance|` with an instance, `|name|` without |
| VarNames.VarNameInjective | synth_constants_cegis_stage.py:116-117 | under one instance, different names give different variables |
| VarNames.InstanceChangesName | synth_constants_cegis_stage.py:117 | a name with an instance differs from the name without one |
| VarNames.InstanceIsSuffix | synth_constants_cegis_stage.py:117 | naming with an instance is naming `name_instance` without one |
| VarNames.OpndValNameInjective | synth_constants_cegis_stage.py:136-138 | the operand value name determines the slot, operand and sort |
| VarNames.ConstVarInjective | synth_constants_cegis_stage.py:389-390 | equal constant variable names come from the same slot, operand, sort and instance |
| VarNames.InstanceChangesConstVar | synth_constants_cegis_stage.py:128-130 | a constant variable named with an instance is not the same solver constant as the one named without |
| VarNames.FamiliesShareNames | synth_constants_cegis_stage.py:128-138 | an operand value and a constant variable of different sorts can print the same name and differ only in the sort of their key |
| Search.FirstFoundFacts | synth_constants_cegis_stage.py:764-772 | sizes are tried in order, every size tried but the last failed, the program is the last attempt's, and None means every size failed |
| Search.Synth | synth_constants_cegis_stage.py:761-772 | the size loop returns exactly the reference search's program and statistics; the loop of `SynthN`'s `synth` (synth_n.py:495-505) is the same |
| HackersDelight.BitAsVector | hackdel.py:41 | `ZeroExt(w - 1, Extract(i, i, x))` is a w-bit vector whose value is bit i |
| HackersDelight.Popcount | hackdel.py:38-42 | the w-bit sum equals the number of 1-bits, hence at most w |
| HackersDelight.PopcountOfZero | hackdel.py:38-42 | popcount of 0 is 0 |
| HackersDelight.LeadingZeros | hackdel.py:44-50 | the zeros above the highest 1-bit: all zero there, a 1-bit below them unless x is 0 |
| HackersDelight.NlzGuardAtHighestBit | hackdel.py:48-49 | the loop guard at i holds exactly at the highest 1-bit below the top |
| HackersDelight.NlzGuardsExclusive | hackdel.py:47-49 | at most one guard matches, so the loop order is irrelevant |
| HackersDelight.Nlz | hackdel.py:44-50 | the loop with the top-bit case computes the number of leading zeros |
| HackersDelight.NlzOfZero | hackdel.py:46 | nlz of 0 is w |
| HackersDelight.NlzTopBitSet | hackdel.py:50 | nlz with the top bit set is 0 |
| HackersDelight.NlzOfHighestBit | hackdel.py:47-49 | otherwise nlz is w - 1 - h for the highest set bit h |
| HackersDelight.NlzFitsWidth | hackdel.py:46-49 | the result fits in w bits |
| HackersDelight.PowerOfTwoOnlyLowestBit | hackdel.py:52-53 | `x & -x == x` exactly when x has no 1-bit besides its lowest |
| HackersDelight.PowerOfTwoIff | hackdel.py:52-53 | `is_power_of_two(x)` holds exactly for 0 and for `1 << i` with `i < w` |
| HackersDelight.PowerOfTwoOfShiftedOne | hackdel.py:52-53 | it holds for every `1 << i` |
| HackersDelight.ZeroIsPowerOfTwo | hackdel.py:52-53 | it also holds for 0 |
| HackersDelight.Sol | hackdel.py:55-61 | exact: the frequencies as given; otherwise every library operator at 0, overridden by the given entries |
| HackersDelight.TurnOffRightmostOne | hackdel.py:63-67 | `x & (x - 1)` is x with its lowest 1-bit cleared |
| HackersDelight.RightmostOneOffIsZero | hackdel.py:69-75 | `x & (x - 1)` is 0 exactly when x has at most one 1-bit |
| HackersDelight.RightmostOneOffTestsPowerOfTwo | hackdel.py:69-75 | so `x & (x - 1)` meets the p02 specification |
| HackersDelight.IsolateRightmostOne | hackdel.py:77-82 | `x & -x` has exactly the lowest 1-bit of x |
| HackersDelight.MaskRightmostOne | hackdel.py:84-89 | `x ^ (x - 1)` sets exactly the bits up to the lowest 1-bit |
| HackersDelight.RightPropagateRightmostOne | hackdel.py:91-96 | `x \| (x - 1)` also sets every bit below the lowest 1-bit |
| HackersDelight.TurnOnRightmostZero | hackdel.py:98-103 | `x \| (x + 1)` is x with its lowest 0-bit set |
| HackersDelight.IsolateRightmostZero | hackdel.py:105-110 | `~x & (x + 1)` has exactly the lowest 0-bit of x |
| HackersDelight.TrailingZerosMask | hackdel.py:112-117 | `~x & (x - 1)` sets exactly the bits below the lowest 1-bit |
| BitVectors.AddIsModular | hackdel.py:100 | w-bit `+` is addition modulo 2^w |
| BitVectors.SubIsModular | hackdel.py:65 | w-bit `-` is subtraction modulo 2^w |
| BitVectors.NegIsModular | hackdel.py:79 | w-bit negation is `2^w - x` modulo 2^w |
| BitVectors.NotValue | hackdel.py:107 | `~x` has value `2^w - 1 - x` |
| BitVectors.DecBits | hackdel.py:65 | `x - 1` clears the lowest 1-bit and sets every bit below it |
| BitVectors.IncBits | hackdel.py:100 | `x + 1` sets the lowest 0-bit and clears every bit below it |
| BitVectors.NegBits | hackdel.py:79 | `-x` is `~x + 1` bit for bit |
| RuleFindings.NoDeadCodeLetsDeadInsnThrough | synth_n.py:322-329 | a model satisfying every rule as written whose program has an unused instruction, rejected by the corrected rule |
| RuleFindings.NoCseLetsDuplicatesThrough | synth_n.py:313-320 | a model satisfying every rule as written whose program repeats an instruction, rejected by the corrected rule |
| ConstantsFindings.InputOperandAsWritten | synth_constants_cegis_stage.py:428 | a well-formed program whose operand reads an input: IndexError as written, constraints written once corrected |
| ConstantsFindings.OutputsSkipInsnAsWritten | synth_constants_cegis_stage.py:409 | with two outputs the loop as written skips the only instruction and records none of its constants |
| ConstantsFindings.OutputsSkipInsnCorrected | synth_constants_cegis_stage.py:409-447 | the corrected loop writes the instruction and records its constant |
| ConstantsFindings.OutputsSkipInsnRebuilt | synth_constants_cegis_stage.py:497 | so rebuilding raises KeyError with the as-written dictionary and succeeds with the corrected one |
| ConstantsFindings.ConstPrgRecorded | synth_constants_cegis_stage.py:423-425 | `write_constraints` as written records the program's constant under its `fa` variable |
| ConstantsFindings.ConstSetMissesRefinedAsWritten | synth_constants_cegis_stage.py:187-196 | an answer meeting the restriction as written while the refined constant lies outside `const_set` |

## Left out

- Z3 itself is not modelled: solving, `check()`, `model()`, the `psmt` tactic, contexts and `Context()`. Contexts are a number on each operator, and the solver's answer is a parameter.
- Z3 terms become data. `op.instantiate` and `spec.instantiate` are the symbolic constraints `InsnSem` and `SpecHolds`. `spec.eval` and `sample_n` are the parameter `outVals` / the given samples. All of these live in `cegis`, which is not part of this model, and so is the CEGIS driver loop. Each synthesis attempt of the size search is a parameter.
- The `SynthN` goal is a predicate over a `Model`, not a list of solver assertions. `add_constr_instance`, `add_constr_conn` and `add_constr_io_*` of `SynthN` only feed the solver, so `SynthWithNewSamples` counts their samples and does not record the constraints.
- The `opt_insn_order` mask compares unbounded integers below 2^length. Z3's length-bit vectors cannot overflow there, so the two orders agree.
- `EnumSortEnum` (a Z3 datatype sort) is not modelled. Operators are indices into `ops`, and sorts are values of the model.
- `add_prg_constraints` is not modelled: nothing calls it.
- `synth_with_new_spec` is not modelled: it is a Z3 `ForAll`/`Exists` query.
- The constants stage's `create_prg` is not modelled: nothing on the stage's path uses it.
- `transform_to_bitwidth`, `transform_to_bw_func` and the `downsize` path of `synth` are not modelled. They depend on unseen code and on exceptions.
- `write_smt2`, output dumps, `print`, debug output, timers and statistics contents are not modelled. A statistics entry is represented by the size it belongs to.
- Also not modelled: `lru_cache`, the Z3 global options, argparse, and the `test_p09`–`test_p24` drivers.
- ConstantsStage.SynthConstants.constructor: `max_const` is stored but plays no part in the stage, exactly as in the source. The other options apply through `Admits`, which constrains only variables the rebuilt program does not depend on.
- The stage's solver answer maps the `Var` names to integers. Constant values are integers and are not truncated to the sort's width.
- Python `assert`s about the samples' lengths become preconditions (`SamplesFit`). The `assert ty.ctx == self.ctx` of `get_var` always holds in the model: `Sort` carries no context, and every operator the stage uses is in `ctx` by the class invariant `SynthConstants.Valid`.
- Synthesis.SynthN.constructor: requires every user operator to be in the specification's context. synth_n.py:82 raises AssertionError otherwise.
- Synthesis.SynthN.constructor: requires at least one output. `spec.outputs[0]` at synth_n.py:86 raises IndexError without one.
- Synthesis.SynthN.constructor: the AssertionErrors of `add_constr_opt` are not modelled. With `opt_const`, synth_n.py:304 fails for an operator without operands; `ConstRuleAt` then makes every slot that selects it unsatisfiable.
- Synthesis.SynthN.constructor: the KeyError of `types[ty]` in `add_constr_ty` (synth_n.py:260-264) is not modelled. With two or more sorts, it is raised for a specification sort that no operator has. `TypeRules` instead fixes that line's sort to a value no operator consumes.
- ConstantsStage.SynthConstants.constructor: requires every user operator to be in the specification's context. synth_constants_cegis_stage.py:48 raises AssertionError otherwise. The same AssertionError at synth_constants_cegis_stage.py:264 and KeyError at :220-224 as in `SynthN` are not modelled. Nor is the `opt_no_cse` AssertionError at :279, raised when every operator is nullary and there are two or more instruction slots. The stage adds no `id`, so its `max_arity` can be 0.
- ConstantsStage.SynthConstants.SynthWithNewSamples: requires `prg.Some?`. `prg == None` stands for the attribute `prg`, which `__init__` never creates and only `set_prg` (synth_constants_cegis_stage.py:392-393) does. Without a stored program, `prg = self.prg` raises AttributeError at synth_constants_cegis_stage.py:515, which is not modelled. `SetPrg` takes a `Prg`, so `set_prg(None)`, after which `assert prg is not None` at :516 raises AssertionError, is not modelled either.
- ConstantsStage.SynthConstants.WriteConstraints: requires `prg.Some?` for the same reason. Without `set_prg`, the AttributeError at synth_constants_cegis_stage.py:396 is not modelled.
- ConstantsStage.SynthConstants.AddSamples: the round's blocks are a ghost parameter fixed by the caller. `SynthWithNewSamples` passes the blocks of its own samples.

## Findings

| source | as written | input that shows it | evidently intended | confidence | as-written member | corrected member |
|---|---|---|---|---|---|---|
| synth_constants_cegis_stage.py:428 | the sort of a referenced line is looked up at `prg.insns[value - n_inputs]`, also for input lines | two inputs, one `add(x0, x1)`: line 0 indexes `insns[-2]`, IndexError | an input line has the input's sort | not executed | ConstantsFindings.InputOperandAsWritten | ConstantsSpec.ProducerType |
| synth_constants_cegis_stage.py:409 | the loop runs to `length - n_outputs`, skipping the last `n_outputs - 1` instructions | one input, `neg(5)` returned twice: the instruction is skipped and `prg_from_changed_model` raises KeyError | the loop runs over all `n_insns` instruction slots | not executed | ConstantsFindings.OutputsSkipInsnAsWritten | Refinement.WrittenNamesAllConsts |
| synth_n.py:322-329 | a use counts through any of the `max_arity` operand variables, including those beyond the operator's arity | `not x0`, then `id(5)` with its unused second operand pinned to line 1: line 1 counts as used | only operands the operator takes count as uses | not executed | RuleFindings.NoDeadCodeLetsDeadInsnThrough | ProgramShape.ProgramOfNoDeadCode |
| synth_n.py:313-320 | two instructions differ when some operand line variable differs, also for constant operands | `add(x0, 5)` twice, with different line variables behind the constant | the operands the program gets must differ | not executed | RuleFindings.NoCseLetsDuplicatesThrough | ProgramShape.ProgramOfNoDuplicates |
| synth_constants_cegis_stage.py:187-196 | `const_set` restricts the constant variables without an instance, but the refined constants are the `fa` ones | `neg(3)` with `const_set` {0}: the instance-less variables are 0 and the `fa` constant 7 | the refined constants are restricted | not executed | ConstantsFindings.ConstSetMissesRefinedAsWritten | ConstSet.RefinedConstsAllowed |
