/**
  The outer search over program sizes: one synthesizer per size, in the
  order given, until one of them yields a program.  A synthesis attempt
  for a size is a parameter; the statistics entry of an attempt is
  represented by the size it was made for.
 */
module Search {
  import opened Programs

  /**
    The reference search: the first size whose attempt yields a program
    wins, and the sizes tried are a prefix of the sizes given.
   */
  function FirstFound<P>(sizes: seq<nat>, attempt: nat -> Option<P>): (r: (Option<P>, seq<nat>))
  {
    if sizes == [] then (None, [])
    else if attempt(sizes[0]).Some? then (attempt(sizes[0]), [sizes[0]])
    else
      var rest := FirstFound(sizes[1..], attempt);
      (rest.0, [sizes[0]] + rest.1)
  }

  /**
    What the search promises: the sizes tried are a prefix of the sizes
    given, every tried size but the last failed, a program found is the last
    attempt's, and no program means every size was tried and failed.
   */
  lemma {:induction false} FirstFoundFacts<P>(sizes: seq<nat>, attempt: nat -> Option<P>)
    ensures var r := FirstFound(sizes, attempt);
      && |r.1| <= |sizes| && r.1 == sizes[..|r.1|]
      && (forall i :: 0 <= i < |r.1| - 1 ==> attempt(r.1[i]).None?)
      && (r.0.Some? ==> |r.1| >= 1 && r.0 == attempt(r.1[|r.1| - 1]))
      && (r.0.None? ==> r.1 == sizes && forall i :: 0 <= i < |sizes| ==> attempt(sizes[i]).None?)
  {
    if sizes != [] && attempt(sizes[0]).None? {
      FirstFoundFacts(sizes[1..], attempt);
      var rest := FirstFound(sizes[1..], attempt);
      var r := FirstFound(sizes, attempt);
      assert r == (rest.0, [sizes[0]] + rest.1);
      assert sizes == [sizes[0]] + sizes[1..];
      assert r.1 == sizes[..|r.1|];
      forall i | 0 <= i < |r.1| - 1
        ensures attempt(r.1[i]).None?
      {
        if i > 0 { assert r.1[i] == rest.1[i - 1]; }
      }
      if r.0.None? {
        forall i | 0 <= i < |sizes|
          ensures attempt(sizes[i]).None?
        {
          if i > 0 { assert sizes[i] == sizes[1..][i - 1]; }
        }
      }
    }
  }

  /** The search still to run after i failed sizes. */
  ghost predicate SearchFrom<P>(sizes: seq<nat>, attempt: nat -> Option<P>, i: nat)
    requires i <= |sizes|
  {
    FirstFound(sizes, attempt) == (FirstFound(sizes[i..], attempt).0, sizes[..i] + FirstFound(sizes[i..], attempt).1)
  }

  lemma SearchFromStart<P>(sizes: seq<nat>, attempt: nat -> Option<P>)
    ensures SearchFrom(sizes, attempt, 0)
  {
    assert sizes[0..] == sizes && sizes[..0] == [];
    assert [] + FirstFound(sizes, attempt).1 == FirstFound(sizes, attempt).1;
  }

  /** A failed attempt passes the search on to the next size. */
  lemma SearchFromNext<P>(sizes: seq<nat>, attempt: nat -> Option<P>, i: nat)
    requires i < |sizes| && attempt(sizes[i]).None? && SearchFrom(sizes, attempt, i)
    ensures SearchFrom(sizes, attempt, i + 1)
  {
    assert sizes[i..][1..] == sizes[i + 1..];
    var r := FirstFound(sizes[i + 1..], attempt);
    assert FirstFound(sizes[i..], attempt) == (r.0, [sizes[i]] + r.1);
    assert sizes[..i] + ([sizes[i]] + r.1) == sizes[..i + 1] + r.1;
  }

  lemma SearchFromFound<P>(sizes: seq<nat>, attempt: nat -> Option<P>, i: nat)
    requires i < |sizes| && attempt(sizes[i]).Some? && SearchFrom(sizes, attempt, i)
    ensures FirstFound(sizes, attempt) == (attempt(sizes[i]), sizes[..i + 1])
  {
    assert sizes[i..][0] == sizes[i];
    assert sizes[..i] + [sizes[i]] == sizes[..i + 1];
  }

  lemma SearchFromEnd<P>(sizes: seq<nat>, attempt: nat -> Option<P>)
    requires SearchFrom(sizes, attempt, |sizes|)
    ensures FirstFound(sizes, attempt) == (None, sizes)
  {
    var e := sizes[|sizes|..];
    assert e == [];
    assert FirstFound(e, attempt) == (None, []);
    assert sizes[..|sizes|] + [] == sizes;
  }

  /**
    `synth(spec, ops, iter_range)` of `SynthN` and `run_synth` of the
    constants stage: the synthesized program, or None, and one entry per
    size tried.
   */
  method Synth<P>(sizes: seq<nat>, attempt: nat -> Option<P>) returns (prg: Option<P>, stats: seq<nat>)
    ensures (prg, stats) == FirstFound(sizes, attempt)
  {
    stats := [];
    SearchFromStart(sizes, attempt);
    for i := 0 to |sizes|
      invariant stats == sizes[..i]
      invariant SearchFrom(sizes, attempt, i)
    {
      var p := attempt(sizes[i]);
      stats := stats + [sizes[i]];
      assert stats == sizes[..i + 1];
      if p.Some? {
        SearchFromFound(sizes, attempt, i);
        return p, stats;
      }
      SearchFromNext(sizes, attempt, i);
    }
    SearchFromEnd(sizes, attempt);
    assert sizes[..|sizes|] == sizes;
    prg := None;
  }
}
