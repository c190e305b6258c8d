/**
  The enumerations the synthesizer uses to encode operators and types as
  solver values: `EnumBase` pairs items with constructors in both
  directions, `BitVecEnum` numbers the items 0 .. n-1 and adds the range
  constraint of a bit-vector encoding.
 */
module Enums {
  import opened Programs

  /**
    The dictionary `{ k: v for k, v in zip(ks, vs) }`: every key of `ks`
    maps to the value at its last occurrence.
   */
  function ZipMap<K, V>(ks: seq<K>, vs: seq<V>): (r: map<K, V>)
    requires |ks| == |vs|
    ensures forall i :: 0 <= i < |ks| ==> ks[i] in r
    ensures forall k :: k in r ==> k in ks
    ensures |ks| > 0 ==> r[ks[|ks| - 1]] == vs[|vs| - 1]
  {
    if |ks| == 0 then map[]
    else ZipMap(ks[..|ks| - 1], vs[..|vs| - 1])[ks[|ks| - 1] := vs[|vs| - 1]]
  }

  /** With distinct keys, key `ks[i]` maps to `vs[i]`. */
  lemma {:induction false} ZipMapAt<K, V>(ks: seq<K>, vs: seq<V>, i: nat)
    requires |ks| == |vs| && Distinct(ks) && i < |ks|
    ensures ZipMap(ks, vs)[ks[i]] == vs[i]
  {
    var n := |ks| - 1;
    if i < n {
      var p := ks[..n];
      assert Distinct(p) by {
        forall a, b | 0 <= a < b < |p|
          ensures p[a] != p[b]
        {
          assert p[a] == ks[a] && p[b] == ks[b];
        }
      }
      ZipMapAt(p, vs[..n], i);
      assert ks[n] != ks[i];
    }
  }

  /** With distinct keys the dictionary has one entry per key. */
  lemma {:induction false} ZipMapSize<K, V>(ks: seq<K>, vs: seq<V>)
    requires |ks| == |vs| && Distinct(ks)
    ensures |ZipMap(ks, vs)| == |ks|
  {
    if |ks| > 0 {
      var n := |ks| - 1;
      var p := ks[..n];
      assert Distinct(p) by {
        forall a, b | 0 <= a < b < |p|
          ensures p[a] != p[b]
        {
          assert p[a] == ks[a] && p[b] == ks[b];
        }
      }
      ZipMapSize(p, vs[..n]);
      var m := ZipMap(p, vs[..n]);
      forall a | 0 <= a < |p|
        ensures p[a] != ks[n]
      {
        assert p[a] == ks[a];
      }
      assert ks[n] !in m;
      assert m[ks[n] := vs[n]].Keys == m.Keys + {ks[n]};
    }
  }

  /** When every value is f of its key, the dictionary maps each key to f of it, duplicates or not. */
  lemma {:induction false} ZipMapGraph<K, V>(ks: seq<K>, vs: seq<V>, f: K -> V)
    requires |ks| == |vs| && forall i :: 0 <= i < |ks| ==> vs[i] == f(ks[i])
    ensures forall k :: k in ZipMap(ks, vs) ==> ZipMap(ks, vs)[k] == f(k)
  {
    if |ks| > 0 {
      ZipMapGraph(ks[..|ks| - 1], vs[..|vs| - 1], f);
    }
  }

  /** Mutually inverse: every key of one dictionary is returned by the other. */
  predicate Inverse<A, B>(f: map<A, B>, g: map<B, A>)
  {
    (forall a :: a in f ==> f[a] in g && g[f[a]] == a) &&
    (forall b :: b in g ==> g[b] in f && f[g[b]] == b)
  }

  /** Zipping distinct items with distinct constructors gives inverse maps. */
  lemma ZipMapInverse<K, V>(ks: seq<K>, vs: seq<V>)
    requires |ks| == |vs| && Distinct(ks) && Distinct(vs)
    ensures Inverse(ZipMap(ks, vs), ZipMap(vs, ks))
  {
    var f, g := ZipMap(ks, vs), ZipMap(vs, ks);
    forall a | a in f
      ensures f[a] in g && g[f[a]] == a
    {
      var i :| 0 <= i < |ks| && ks[i] == a;
      ZipMapAt(ks, vs, i);
      ZipMapAt(vs, ks, i);
    }
    forall b | b in g
      ensures g[b] in f && f[g[b]] == b
    {
      var i :| 0 <= i < |vs| && vs[i] == b;
      ZipMapAt(vs, ks, i);
      ZipMapAt(ks, vs, i);
    }
  }

  /** `EnumBase`: items paired with solver constructors. */
  class EnumBase<I(==), C(==)> {
    const cons: seq<C>
    const itemToCons: map<I, C>
    const consToItem: map<C, I>

    /** Fills both dictionaries by walking the items and constructors together. */
    constructor (items: seq<I>, cons: seq<C>)
      requires |items| == |cons|
      ensures this.cons == cons
      ensures itemToCons == ZipMap(items, cons)
      ensures consToItem == ZipMap(cons, items)
    {
      var ic: map<I, C> := map[];
      var ci: map<C, I> := map[];
      for j := 0 to |items|
        invariant ic == ZipMap(items[..j], cons[..j])
        invariant ci == ZipMap(cons[..j], items[..j])
      {
        assert items[..j + 1][..j] == items[..j] && cons[..j + 1][..j] == cons[..j];
        ic := ic[items[j] := cons[j]];
        ci := ci[cons[j] := items[j]];
      }
      assert items[..|items|] == items && cons[..|cons|] == cons;
      this.cons := cons;
      itemToCons := ic;
      consToItem := ci;
    }

    /** `len(enum)`: the number of constructors. */
    function Len(): nat
    {
      |cons|
    }
  }

  /** With distinct items and constructors, both maps have `len(cons)` entries and invert each other. */
  lemma EnumBaseBijection<I, C>(e: EnumBase<I, C>, items: seq<I>)
    requires |items| == |e.cons| && Distinct(items) && Distinct(e.cons)
    requires e.itemToCons == ZipMap(items, e.cons) && e.consToItem == ZipMap(e.cons, items)
    ensures Inverse(e.itemToCons, e.consToItem)
    ensures |e.itemToCons| == e.Len() && |e.consToItem| == e.Len()
  {
    ZipMapInverse(items, e.cons);
    ZipMapSize(items, e.cons);
    ZipMapSize(e.cons, items);
  }

  /** The ids 0 .. n-1. */
  function Ids(n: nat): (r: seq<nat>)
    ensures |r| == n && Distinct(r)
    ensures forall j :: 0 <= j < n ==> r[j] == j
  {
    seq(n, j => j)
  }

  /** `BitVecEnum`: the items get the consecutive ids 0 .. n-1. */
  class BitVecEnum<I(==)> {
    const base: EnumBase<I, nat>

    constructor (items: seq<I>)
      ensures base.cons == Ids(|items|)
      ensures base.itemToCons == ZipMap(items, Ids(|items|))
      ensures base.consToItem == ZipMap(Ids(|items|), items)
    {
      base := new EnumBase(items, Ids(|items|));
    }

    /** `add_range_constr`: the solver variable is below `len(item_to_cons)`. */
    predicate Admits(v: nat)
    {
      v < |base.itemToCons|
    }

    /** `get_from_model_val`: the item of an id; None is the KeyError of an unknown id. */
    function FromModelVal(v: nat): (r: Option<I>)
      ensures r.Some? <==> v in base.consToItem
      ensures r.Some? ==> r.value == base.consToItem[v]
    {
      if v in base.consToItem then Some(base.consToItem[v]) else None
    }
  }

  /**
    For distinct items, item `items[j]` gets id `j`, the range constraint
    admits exactly the ids below n, and every admitted id decodes to the
    item that has it.
   */
  lemma BitVecEnumIds<I>(e: BitVecEnum<I>, items: seq<I>)
    requires Distinct(items)
    requires e.base.itemToCons == ZipMap(items, Ids(|items|))
    requires e.base.consToItem == ZipMap(Ids(|items|), items)
    ensures forall j :: 0 <= j < |items| ==> e.base.itemToCons[items[j]] == j
    ensures forall v: nat :: e.Admits(v) <==> v < |items|
    ensures forall j :: 0 <= j < |items| ==> e.FromModelVal(j) == Some(items[j])
  {
    ZipMapSize(items, Ids(|items|));
    forall j | 0 <= j < |items|
      ensures e.base.itemToCons[items[j]] == j && e.FromModelVal(j) == Some(items[j])
    {
      ZipMapAt(items, Ids(|items|), j);
      ZipMapAt(Ids(|items|), items, j);
    }
  }

  /** Decoding the id of an item gives the item back. */
  lemma BitVecEnumRoundTrip<I>(e: BitVecEnum<I>, items: seq<I>, x: I)
    requires Distinct(items) && x in items
    requires e.base.itemToCons == ZipMap(items, Ids(|items|))
    requires e.base.consToItem == ZipMap(Ids(|items|), items)
    ensures x in e.base.itemToCons && e.Admits(e.base.itemToCons[x])
    ensures e.FromModelVal(e.base.itemToCons[x]) == Some(x)
  {
    var j :| 0 <= j < |items| && items[j] == x;
    BitVecEnumIds(e, items);
  }
}
