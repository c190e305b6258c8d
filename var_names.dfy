/**
  The names of the solver constants of the constants stage.  `get_var`
  quotes a name with bars and appends the instance, after an underscore,
  when there is one; the families of variables put the slot number, the
  operand number and the sort into the name.
 */
module VarNames {
  import opened Programs

  /** The instance under which `write_constraints` names the constants it refines. */
  const FaInstance: string := "fa"

  /** `get_var`'s name: `|name_instance|` with an instance, `|name|` without. */
  function VarName(name: string, inst: Option<string>): (r: string)
    ensures |r| >= 2 && r[0] == '|' && r[|r| - 1] == '|'
    ensures r[1..|r| - 1] == if inst.Some? then name + "_" + inst.value else name
  {
    if inst.Some? then "|" + name + "_" + inst.value + "|" else "|" + name + "|"
  }

  /** Under one instance, different names give different variables. */
  lemma VarNameInjective(a: string, b: string, inst: Option<string>)
    ensures VarName(a, inst) == VarName(b, inst) <==> a == b
  {
    if VarName(a, inst) == VarName(b, inst) {
      var r := VarName(a, inst);
      if inst.Some? {
        assert a + "_" + inst.value == b + "_" + inst.value;
        StripSuffix(a + "_", b + "_", inst.value);
        StripSuffix(a, b, "_");
      }
    }
  }

  /** A name with an instance is never the same name without one. */
  lemma InstanceChangesName(name: string, inst: string)
    ensures VarName(name, None) != VarName(name, Some(inst))
  {
    assert |VarName(name, None)| == |name| + 2;
    assert |VarName(name, Some(inst))| == |name| + |inst| + 3;
  }

  /**
    The two namespaces overlap: the name `n_s` without an instance is the
    name `n` under instance `s`.
   */
  lemma InstanceIsSuffix(name: string, inst: string)
    ensures VarName(name + "_" + inst, None) == VarName(name, Some(inst))
  {
    assert "|" + (name + "_" + inst) + "|" == "|" + name + "_" + inst + "|";
  }

  function InsnPrefix(i: int): string
  {
    "insn_" + IntToString(i)
  }

  /** `insn_{i}_opnd_{k}_{ty}`. */
  function OpndValName(i: nat, k: nat, ty: Sort): string
  {
    InsnPrefix(i) + "_opnd_" + NatToString(k) + "_" + ty.name
  }

  /**
    A solver constant of the stage, by the family it belongs to.  The
    solver knows a constant by its name and its sort, `Key()`.
   */
  datatype Var =
    | ResVar(line: int, ty: Sort, inst: Option<string>)             // insn_{i}_res_{ty}: the result of line i
    | OpndVar(slot: nat, opnd: nat, ty: Sort, inst: Option<string>) // insn_{i}_opnd_{k}_{ty}: the value of operand k of slot i
    | ConstVar(slot: nat, opnd: nat, ty: Sort, inst: Option<string>) // insn_{i}_opnd_{k}_{ty}_const_val: its constant
  {
    function BaseName(): string
    {
      match this
      case ResVar(i, ty, _) => InsnPrefix(i) + "_res_" + ty.name
      case OpndVar(i, k, ty, _) => OpndValName(i, k, ty)
      case ConstVar(i, k, ty, _) => OpndValName(i, k, ty) + "_const_val"
    }

    function Name(): string
    {
      VarName(BaseName(), inst)
    }

    function Key(): (string, Sort)
    {
      (Name(), ty)
    }
  }

  // ---------------------------------------------------------------------------
  // Reading the numbers back out of a name

  predicate DigitsOnly(s: string)
  {
    forall c :: c in s ==> '0' <= c <= '9'
  }

  /** The position of the first underscore of s, or |s| when there is none. */
  function FirstUnderscore(s: string): (r: nat)
    ensures r <= |s|
  {
    if s == [] then 0 else if s[0] == '_' then 0 else 1 + FirstUnderscore(s[1..])
  }

  lemma {:induction false} FirstUnderscoreAfterDigits(a: string, x: string)
    requires DigitsOnly(a)
    ensures FirstUnderscore(a + "_" + x) == |a|
  {
    var s := a + "_" + x;
    if a == [] {
      assert s[0] == '_';
    } else {
      assert a[0] in a;
      assert s[0] == a[0];
      assert s[1..] == a[1..] + "_" + x;
      assert DigitsOnly(a[1..]) by {
        forall c | c in a[1..]
          ensures '0' <= c <= '9'
        {
          assert c in a;
        }
      }
      FirstUnderscoreAfterDigits(a[1..], x);
    }
  }

  /** A number followed by an underscore can be split off a name uniquely. */
  lemma SplitAfterDigits(a: string, x: string, b: string, y: string)
    requires DigitsOnly(a) && DigitsOnly(b)
    requires a + "_" + x == b + "_" + y
    ensures a == b && x == y
  {
    FirstUnderscoreAfterDigits(a, x);
    FirstUnderscoreAfterDigits(b, y);
    var s := a + "_" + x;
    assert a == s[..|a|];
    assert b == s[..|b|];
    assert x == s[|a| + 1..];
    assert y == s[|b| + 1..];
  }

  lemma StripPrefix(p: string, a: string, b: string)
    requires p + a == p + b
    ensures a == b
  {
    assert a == (p + a)[|p|..];
    assert b == (p + b)[|p|..];
  }

  lemma StripSuffix(a: string, b: string, t: string)
    requires a + t == b + t
    ensures a == b
  {
    assert a == (a + t)[..|a|];
    assert b == (b + t)[..|b|];
  }

  lemma OpndValNameParts(i: nat, k: nat, ty: Sort)
    ensures OpndValName(i, k, ty) ==
      "insn_" + (NatToString(i) + "_" + ("opnd_" + (NatToString(k) + "_" + ty.name)))
  {
  }

  /** The operand-value name gives back the slot, the operand and the sort. */
  lemma OpndValNameInjective(i: nat, k: nat, ty: Sort, i2: nat, k2: nat, ty2: Sort)
    requires OpndValName(i, k, ty) == OpndValName(i2, k2, ty2)
    ensures i == i2 && k == k2 && ty == ty2
  {
    OpndValNameParts(i, k, ty);
    OpndValNameParts(i2, k2, ty2);
    var r1, r2 := "opnd_" + (NatToString(k) + "_" + ty.name), "opnd_" + (NatToString(k2) + "_" + ty2.name);
    StripPrefix("insn_", NatToString(i) + "_" + r1, NatToString(i2) + "_" + r2);
    SplitAfterDigits(NatToString(i), r1, NatToString(i2), r2);
    NatToStringInjective(i, i2);
    StripPrefix("opnd_", NatToString(k) + "_" + ty.name, NatToString(k2) + "_" + ty2.name);
    SplitAfterDigits(NatToString(k), ty.name, NatToString(k2), ty2.name);
    NatToStringInjective(k, k2);
  }

  /**
    Every constant slot has its own constant variable: two constant
    variables of one instance with the same name are the same slot, operand
    and sort.
   */
  lemma ConstVarInjective(a: Var, b: Var)
    requires a.ConstVar? && b.ConstVar? && a.inst == b.inst && a.Name() == b.Name()
    ensures a == b
  {
    var n1, n2 := OpndValName(a.slot, a.opnd, a.ty), OpndValName(b.slot, b.opnd, b.ty);
    VarNameInjective(n1 + "_const_val", n2 + "_const_val", a.inst);
    StripSuffix(n1, n2, "_const_val");
    OpndValNameInjective(a.slot, a.opnd, a.ty, b.slot, b.opnd, b.ty);
  }

  /**
    The families overlap too: a sort name may end in `_const_val`, so an
    operand value and a constant variable can print the same name; only
    the sort in `Key()` separates them.
   */
  lemma FamiliesShareNames()
    ensures var a, b := OpndVar(1, 0, Sort("a_const_val"), None), ConstVar(1, 0, Sort("a"), None);
      a != b && a.Name() == b.Name() && a.Key() != b.Key()
  {
    var a, b := OpndVar(1, 0, Sort("a_const_val"), None), ConstVar(1, 0, Sort("a"), None);
    assert a.BaseName() == b.BaseName();
  }

  /** A constant variable named with an instance is another solver constant than the one named without. */
  lemma InstanceChangesConstVar(i: nat, k: nat, ty: Sort, inst: string)
    ensures ConstVar(i, k, ty, None).Key() != ConstVar(i, k, ty, Some(inst)).Key()
  {
    InstanceChangesName(ConstVar(i, k, ty, None).BaseName(), inst);
  }
}
