/**
  Shared data model of the synthesizer: sorts, operators, specifications,
  programs, the slot layout of a synthesis problem, operator contexts, and a
  few helpers for the Python semantics the synthesizer relies on (negative
  indexing, slice ends, first-occurrence de-duplication of dictionary keys).
 */
module Programs {

  datatype Option<T> = None | Some(value: T)

  /** The outcome of an operation that raises an exception in some cases. */
  datatype Result<T> = Ok(value: T) | Err(msg: string)

  /** A solver sort; `name` is its printed form, used inside variable names. */
  datatype Sort = Sort(name: string)

  /**
    An operator of the library.  `ctx` is the solver context the operator
    lives in; every other field is independent of the context.
   */
  datatype Func = Func(name: string, inTypes: seq<Sort>, outType: Sort, commutative: bool, ctx: nat)
  {
    function Arity(): nat { |inTypes| }
  }

  /** The context in which operators built without an explicit context live. */
  const MainCtx: nat := 0

  /** `op.translate(ctx)`: the same operator, moved into context `ctx`. */
  function Translate(f: Func, ctx: nat): (g: Func)
    ensures g.ctx == ctx
    ensures SameShape(f, g)
  {
    f.(ctx := ctx)
  }

  /** Translating back into the original context gives the original operator. */
  lemma TranslateBack(f: Func, ctx: nat)
    ensures Translate(Translate(f, ctx), f.ctx) == f
  {
  }

  /** Every operator of `s`, moved to context `ctx`. */
  function TranslateAll(s: seq<Func>, ctx: nat): (r: seq<Func>)
    ensures |r| == |s|
    ensures forall i :: 0 <= i < |s| ==> r[i] == Translate(s[i], ctx)
  {
    seq(|s|, i requires 0 <= i < |s| => Translate(s[i], ctx))
  }

  /** Translating a list with one more operator at its end appends that operator's translation. */
  lemma TranslateAllSnoc(s: seq<Func>, f: Func, ctx: nat)
    ensures TranslateAll(s + [f], ctx) == TranslateAll(s, ctx) + [Translate(f, ctx)]
  {
    var a, b := TranslateAll(s + [f], ctx), TranslateAll(s, ctx) + [Translate(f, ctx)];
    forall i | 0 <= i < |a|
      ensures a[i] == b[i]
    {
      if i < |s| {
        assert (s + [f])[i] == s[i];
      }
    }
  }

  /** Two operators that agree on everything but their context. */
  predicate SameShape(f: Func, g: Func)
  {
    f.name == g.name && f.inTypes == g.inTypes && f.outType == g.outType && f.commutative == g.commutative
  }

  /** Operators of one context stay apart when they are moved to another. */
  lemma TranslateInjective(f: Func, g: Func, ctx: nat)
    requires f.ctx == g.ctx
    ensures Translate(f, ctx) == Translate(g, ctx) <==> f == g
  {
    if Translate(f, ctx) == Translate(g, ctx) {
      assert f == Translate(Translate(f, ctx), f.ctx);
    }
  }

  /** Distinct operators of one context stay distinct when they are all moved to another. */
  lemma TranslateAllDistinct(s: seq<Func>, c0: nat, ctx: nat)
    requires Distinct(s) && forall op :: op in s ==> op.ctx == c0
    ensures Distinct(TranslateAll(s, ctx))
  {
    var r := TranslateAll(s, ctx);
    forall i, j | 0 <= i < j < |r|
      ensures r[i] != r[j]
    {
      assert s[i] in s && s[j] in s;
      TranslateInjective(s[i], s[j], ctx);
    }
  }

  /**
    The specification of a synthesis problem as far as the synthesizer's book
    keeping sees it: the sorts of its inputs and outputs and its context.
    `detTotal` says whether the specification is deterministic and total.
   */
  datatype Spec = Spec(inTypes: seq<Sort>, outTypes: seq<Sort>, ctx: nat, detTotal: bool)

  /**
    One operand of a program: a constant (`value` is the constant) or a
    reference to an earlier slot (`value` is the slot's line number).
   */
  datatype Arg = Arg(isConst: bool, value: int)

  datatype Insn = Insn(op: Func, args: seq<Arg>)

  /** A straight-line program: its instructions and its output operands. */
  datatype Prg = Prg(insns: seq<Insn>, outputs: seq<Arg>)

  /**
    The slots of a synthesis problem: the inputs come first, then `nInsns`
    instruction slots, then one output pseudo-instruction whose operands are
    the program outputs.
   */
  datatype Layout = Layout(nInputs: nat, nInsns: nat, nOutputs: nat, maxArity: nat)
  {
    function OutInsn(): nat { nInputs + nInsns }

    function Length(): nat { OutInsn() + 1 }

    /** `arities`: 0 for the inputs, `maxArity` per instruction, `nOutputs` at the end. */
    function Arities(): (r: seq<nat>)
      ensures |r| == Length()
      ensures forall i :: 0 <= i < nInputs ==> r[i] == 0
      ensures forall i :: nInputs <= i < OutInsn() ==> r[i] == maxArity
      ensures r[OutInsn()] == nOutputs
    {
      seq(nInputs, _ => 0) + seq(nInsns, _ => maxArity) + [nOutputs]
    }

    function Arity(i: nat): nat
      requires i < Length()
    {
      Arities()[i]
    }

    /** `is_op_insn`: the slot holds an instruction. */
    predicate IsOpInsn(i: int)
    {
      i >= nInputs && i < Length() - 1
    }
  }

  /** The layout for a specification, a number of instructions and an operator list. */
  function LayoutFor(spec: Spec, nInsns: nat, ops: seq<Func>): (l: Layout)
    requires |ops| > 0
    ensures l.nInputs == |spec.inTypes| && l.nOutputs == |spec.outTypes| && l.nInsns == nInsns
    ensures l.OutInsn() == |spec.inTypes| + nInsns && l.Length() == l.OutInsn() + 1
    ensures forall op :: op in ops ==> op.Arity() <= l.maxArity
    ensures exists op :: op in ops && op.Arity() == l.maxArity
  {
    Layout(|spec.inTypes|, nInsns, |spec.outTypes|, MaxArity(ops))
  }

  /** The instruction slots are exactly those of arity `maxArity` between the inputs and the output. */
  lemma OpInsnSlots(l: Layout, i: nat)
    requires i < l.Length()
    ensures l.IsOpInsn(i) <==> l.nInputs <= i < l.OutInsn()
    ensures l.IsOpInsn(i) ==> l.Arity(i) == l.maxArity
    ensures i < l.nInputs ==> l.Arity(i) == 0
    ensures !l.IsOpInsn(i) && i >= l.nInputs ==> i == l.OutInsn() && l.Arity(i) == l.nOutputs
  {
  }

  /** `max(op.arity for op in ops)`. */
  function MaxArity(ops: seq<Func>): (r: nat)
    requires |ops| > 0
    ensures forall op :: op in ops ==> op.Arity() <= r
    ensures exists op :: op in ops && op.Arity() == r
  {
    if |ops| == 1 then ops[0].Arity()
    else
      var rest := MaxArity(ops[1..]);
      assert forall op :: op in ops ==> op == ops[0] || op in ops[1..];
      if ops[0].Arity() >= rest then ops[0].Arity() else rest
  }

  /** The sorts mentioned by the operators, `set(ty for op in ops for ty in op.out_types + op.in_types)`. */
  function TypesOf(ops: seq<Func>): (r: set<Sort>)
    ensures forall op :: op in ops ==> op.outType in r && forall t :: t in op.inTypes ==> t in r
    ensures forall t :: t in r ==> exists op :: op in ops && (t == op.outType || t in op.inTypes)
  {
    (set op | op in ops :: op.outType) + (set op, t | op in ops && t in op.inTypes :: t)
  }

  // ---------------------------------------------------------------------------
  // Python helpers

  /** The keys of a dictionary built from `s`, in first-insertion order. */
  function Dedup<T(==)>(s: seq<T>): (r: seq<T>)
    ensures forall i :: 0 <= i < |s| ==> s[i] in r
    ensures forall i :: 0 <= i < |r| ==> r[i] in s
    ensures Distinct(r)
    ensures |r| <= |s|
  {
    if |s| == 0 then []
    else
      var d := Dedup(s[..|s| - 1]);
      if s[|s| - 1] in d then d else d + [s[|s| - 1]]
  }

  predicate Distinct<T(==)>(s: seq<T>)
  {
    forall i, j :: 0 <= i < j < |s| ==> s[i] != s[j]
  }

  /** A list that has no duplicates is its own key list. */
  lemma {:induction false} DedupOfDistinct<T>(s: seq<T>)
    requires Distinct(s)
    ensures Dedup(s) == s
  {
    if |s| > 0 {
      var p, last := s[..|s| - 1], s[|s| - 1];
      assert Distinct(p) by {
        forall i, j | 0 <= i < j < |p|
          ensures p[i] != p[j]
        {
          assert p[i] == s[i] && p[j] == s[j];
        }
      }
      DedupOfDistinct(p);
      assert last !in p by {
        forall i | 0 <= i < |p|
          ensures p[i] != last
        {
          assert p[i] == s[i];
        }
      }
      assert p + [last] == s;
    }
  }

  /** The position of the first occurrence of x in s. */
  function FirstIndex<T(==)>(s: seq<T>, x: T): (r: nat)
    requires x in s
    ensures r < |s| && s[r] == x
    ensures forall b :: 0 <= b < r ==> s[b] != x
  {
    if s[0] == x then 0 else 1 + FirstIndex(s[1..], x)
  }

  /** Appending to a list does not move the first occurrence of an element already in it. */
  lemma FirstIndexSnoc<T>(p: seq<T>, y: T, x: T)
    requires x in p
    ensures FirstIndex(p + [y], x) == FirstIndex(p, x)
  {
    var g := FirstIndex(p, x);
    assert (p + [y])[g] == x;
  }

  /**
    The key list keeps the first occurrences in the order of the list: the
    earlier of two keys occurs first earlier.  This order decides `ops[-1]`
    and the ids of the operator enumeration.
   */
  lemma {:induction false} DedupFirstOrder<T>(s: seq<T>)
    ensures forall i, j :: 0 <= i < j < |Dedup(s)| ==> FirstIndex(s, Dedup(s)[i]) < FirstIndex(s, Dedup(s)[j])
  {
    if |s| > 0 {
      var p, last := s[..|s| - 1], s[|s| - 1];
      var d := Dedup(p);
      DedupFirstOrder(p);
      assert p + [last] == s;
      forall x | x in d
        ensures FirstIndex(s, x) == FirstIndex(p, x)
      {
        FirstIndexSnoc(p, last, x);
      }
      if last !in d {
        assert last !in p;
        assert FirstIndex(s, last) == |s| - 1;
      }
    }
  }

  /** Python's `s[i]`, with negative `i` counting from the end; None is an IndexError. */
  function PyIndex<T>(s: seq<T>, i: int): (r: Option<T>)
    ensures r.Some? <==> -|s| <= i < |s|
    ensures 0 <= i < |s| ==> r == Some(s[i])
    ensures -|s| <= i < 0 ==> r == Some(s[|s| + i])
  {
    if 0 <= i < |s| then Some(s[i])
    else if -|s| <= i < 0 then Some(s[|s| + i])
    else None
  }

  /** The length of the slice `s[:e]` of a sequence of length `n`. */
  function SliceEnd(e: int, n: nat): (r: nat)
    ensures r <= n
    ensures 0 <= e ==> r == if e <= n then e else n
    ensures e < 0 ==> r == if n + e >= 0 then n + e else 0
  {
    if e >= 0 then (if e <= n then e else n)
    else if n + e >= 0 then n + e
    else 0
  }

  function Min(a: nat, b: nat): nat
  {
    if a <= b then a else b
  }

  /** The decimal notation of a natural number, as `str` prints it. */
  function NatToString(n: nat): (r: string)
    ensures |r| >= 1
    ensures forall c :: c in r ==> '0' <= c <= '9'
    ensures r[|r| - 1] == Digit(n % 10)
    ensures |r| == 1 <==> n < 10
  {
    if n < 10 then [Digit(n)] else NatToString(n / 10) + [Digit(n % 10)]
  }

  function Digit(d: nat): (c: char)
    requires d < 10
    ensures '0' <= c <= '9' && c as int - '0' as int == d
  {
    ('0' as int + d) as char
  }

  /** Different numbers are printed differently. */
  lemma {:induction false} NatToStringInjective(n: nat, m: nat)
    requires NatToString(n) == NatToString(m)
    ensures n == m
  {
    var a, b := NatToString(n), NatToString(m);
    assert Digit(n % 10) == Digit(m % 10);
    if n >= 10 {
      assert m >= 10;
      assert a[..|a| - 1] == NatToString(n / 10);
      assert b[..|b| - 1] == NatToString(m / 10);
      NatToStringInjective(n / 10, m / 10);
    }
  }

  /** The decimal notation of an integer, with a leading minus sign when it is negative. */
  function IntToString(i: int): (r: string)
    ensures |r| >= 1
    ensures i >= 0 ==> r == NatToString(i)
    ensures i < 0 ==> r == "-" + NatToString(-i)
  {
    if i >= 0 then NatToString(i) else "-" + NatToString(-i)
  }
}
