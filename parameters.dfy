/** Force-field parameters: atomic parameters, stretches, bends, torsions
    and improper torsions, each known by its AMBER types. Two parameters
    describe the same interaction when their types match forwards or fully
    reversed, optionally with the wildcard type matching anything. A
    parameter set keeps one list per kind; adding a parameter replaces the
    first equivalent entry or appends, and updating from another set merges
    its lists entry by entry. */
module AmberParameters {

  /** An AMBER atom type: the wildcard type `*`, which stands for every
      type, or one of the others, told apart by their code. */
  datatype Amber = Wildcard | Code(code: nat)

  /** Two types match when they are the same, or, when wildcards are
      allowed, when either of them is the wildcard. */
  predicate TypeMatch(a: Amber, b: Amber, wild: bool) {
    a == b || (wild && (a == Wildcard || b == Wildcard))
  }

  /** `types` matches `other` position by position. */
  predicate Forward(types: seq<Amber>, other: seq<Amber>, wild: bool)
    requires |other| == |types|
  {
    forall i :: 0 <= i < |types| ==> TypeMatch(types[i], other[i], wild)
  }

  /** `types` matches `other` read backwards. */
  predicate Reverse(types: seq<Amber>, other: seq<Amber>, wild: bool)
    requires |other| == |types|
  {
    forall i :: 0 <= i < |types| ==> TypeMatch(types[i], other[|types| - 1 - i], wild)
  }

  /** Two lists of types describe the same interaction: they match
      forwards or fully reversed. Lists of different lengths never do. */
  predicate Equivalent(types: seq<Amber>, other: seq<Amber>, wild: bool) {
    |types| == |other| && (Forward(types, other, wild) || Reverse(types, other, wild))
  }

  /** The first `i` types match forwards. */
  predicate ForwardUpTo(types: seq<Amber>, other: seq<Amber>, wild: bool, i: nat)
    requires i <= |types| == |other|
  {
    forall k :: 0 <= k < i ==> TypeMatch(types[k], other[k], wild)
  }

  /** The first `i` types match the last `i` of `other` read backwards. */
  predicate ReverseUpTo(types: seq<Amber>, other: seq<Amber>, wild: bool, i: nat)
    requires i <= |types| == |other|
  {
    forall k :: 0 <= k < i ==> TypeMatch(types[k], other[|types| - 1 - k], wild)
  }

  /** Extending the prefix by one position, and the whole prefix being
      the whole match. */
  lemma UpToStep(types: seq<Amber>, other: seq<Amber>, wild: bool, i: nat)
    requires i < |types| == |other|
    ensures ForwardUpTo(types, other, wild, i + 1) <==>
      ForwardUpTo(types, other, wild, i) && TypeMatch(types[i], other[i], wild)
    ensures ReverseUpTo(types, other, wild, i + 1) <==>
      ReverseUpTo(types, other, wild, i) && TypeMatch(types[i], other[|types| - 1 - i], wild)
    ensures !ForwardUpTo(types, other, wild, i + 1) ==> !Forward(types, other, wild)
    ensures !ReverseUpTo(types, other, wild, i + 1) ==> !Reverse(types, other, wild)
  {
  }

  /** Compares the types of a stretch, bend, torsion or improper torsion
      with `otherTypes` in one pass, front to back and back to front at
      once, giving up as soon as neither direction can match. */
  method TypesEquivalent(types: seq<Amber>, otherTypes: seq<Amber>, wild: bool) returns (r: bool)
    requires |otherTypes| == |types|
    ensures r <==> Equivalent(types, otherTypes, wild)
  {
    var n := |types|;
    var forwardEqual := true;
    var reverseEqual := true;
    var i, j := 0, n - 1;
    while i < n
      invariant 0 <= i <= n && j == n - 1 - i
      invariant forwardEqual == ForwardUpTo(types, otherTypes, wild, i)
      invariant reverseEqual == ReverseUpTo(types, otherTypes, wild, i)
      invariant forwardEqual || reverseEqual
    {
      UpToStep(types, otherTypes, wild, i);
      var t := types[i];
      forwardEqual := forwardEqual && TypeMatch(t, otherTypes[i], wild);
      reverseEqual := reverseEqual && TypeMatch(t, otherTypes[j], wild);
      if !(forwardEqual || reverseEqual) {
        return false;
      }
      i, j := i + 1, j - 1;
    }
    return true;
  }

  /** An atomic parameter has one type, and its equivalence is the match
      of that type. */
  lemma AtomicEquivalent(a: Amber, b: Amber, wild: bool)
    ensures Equivalent([a], [b], wild) <==> TypeMatch(a, b, wild)
  {
    var x, y := [a], [b];
    assert x[0] == a && y[0] == b && |x| - 1 - 0 == 0;
    assert Forward(x, y, wild) <==> TypeMatch(x[0], y[0], wild);
    assert Reverse(x, y, wild) <==> TypeMatch(x[0], y[|x| - 1 - 0], wild);
  }

  /** Every list of types is equivalent to itself. */
  lemma EquivalentReflexive(types: seq<Amber>, wild: bool)
    ensures Equivalent(types, types, wild)
  {
  }

  /** Equivalence does not depend on which side is asked. */
  lemma EquivalentSymmetric(a: seq<Amber>, b: seq<Amber>, wild: bool)
    requires Equivalent(a, b, wild)
    ensures Equivalent(b, a, wild)
  {
    var n := |a|;
    if !Forward(a, b, wild) {
      forall i | 0 <= i < n
        ensures TypeMatch(b[i], a[n - 1 - i], wild)
      {
        assert TypeMatch(a[n - 1 - i], b[n - 1 - (n - 1 - i)], wild);
      }
    }
  }

  /** Without wildcards, equivalence is transitive: it is equality of the
      lists up to reversal. */
  lemma EquivalentTransitive(a: seq<Amber>, b: seq<Amber>, c: seq<Amber>)
    requires Equivalent(a, b, false) && Equivalent(b, c, false)
    ensures Equivalent(a, c, false)
  {
    var n := |a|;
    if Forward(a, b, false) && Reverse(b, c, false) {
      assert Reverse(a, c, false);
    } else if Reverse(a, b, false) && Forward(b, c, false) {
      forall i | 0 <= i < n
        ensures a[i] == c[n - 1 - i]
      {
        assert a[i] == b[n - 1 - i];
      }
    } else if Reverse(a, b, false) && Reverse(b, c, false) {
      forall i | 0 <= i < n
        ensures a[i] == c[i]
      {
        assert a[i] == b[n - 1 - i];
        assert b[n - 1 - i] == c[n - 1 - (n - 1 - i)];
      }
    }
  }

  /** A match without wildcards is also a match with them. */
  lemma ExactIsWild(a: seq<Amber>, b: seq<Amber>)
    requires Equivalent(a, b, false)
    ensures Equivalent(a, b, true)
  {
  }

  /** Types that are all the wildcard match any types of the same
      length. */
  lemma WildcardsMatchAll(a: seq<Amber>, b: seq<Amber>)
    requires |a| == |b| && forall i :: 0 <= i < |a| ==> a[i] == Wildcard
    ensures Equivalent(a, b, true)
  {
    assert Forward(a, b, true);
  }

  /** With wildcards, equivalence is not transitive: a type matches the
      wildcard, which matches another type. */
  lemma WildNotTransitive()
    ensures Equivalent([Code(1)], [Wildcard], true) && Equivalent([Wildcard], [Code(2)], true)
    ensures !Equivalent([Code(1)], [Code(2)], true)
  {
    AtomicEquivalent(Code(1), Wildcard, true);
    AtomicEquivalent(Wildcard, Code(2), true);
    AtomicEquivalent(Code(1), Code(2), true);
  }

  // ---------------------------------------------------------------------
  // The kinds of parameters

  /** Van der Waals parameters of one atom type. */
  datatype AtomicParameter = AtomicParameter(amber: Amber, radius: real, wellDepth: real, mass: real)

  /** A bond stretch between two types. */
  datatype Stretch = Stretch(types: seq<Amber>, req: real, keq: real)

  /** An angle bend between three types. */
  datatype Bend = Bend(types: seq<Amber>, aeq: real, keq: real)

  /** A proper torsion between four types, with four barrier heights and
      phase offsets. */
  datatype Torsion = Torsion(types: seq<Amber>, barrierHeights: seq<real>, phaseOffsets: seq<real>, npaths: int)

  /** An improper torsion between four types. */
  datatype ImproperTorsion = ImproperTorsion(types: seq<Amber>, barrierHeight: real, phaseOffset: real, periodicity: int)

  function AtomicTypes(p: AtomicParameter): seq<Amber> { [p.amber] }
  function StretchTypes(s: Stretch): seq<Amber> { s.types }
  function BendTypes(b: Bend): seq<Amber> { b.types }
  function TorsionTypes(t: Torsion): seq<Amber> { t.types }
  function ImproperTypes(t: ImproperTorsion): seq<Amber> { t.types }

  /** The entries an update skips as invalid: no mass, no equilibrium
      length, no equilibrium angle, no paths, no barrier. */
  predicate AtomicInvalid(p: AtomicParameter) { p.mass == 0.0 }
  predicate StretchInvalid(s: Stretch) { s.req == 0.0 }
  predicate BendInvalid(b: Bend) { b.aeq == 0.0 }
  predicate TorsionInvalid(t: Torsion) { t.npaths == 0 }
  predicate ImproperInvalid(t: ImproperTorsion) { t.barrierHeight == 0.0 }

  // ---------------------------------------------------------------------
  // Lists of parameters

  /** The position of the first entry of `xs` whose types are equivalent
      to `key`, or -1 when there is none. */
  function IndexOf<T>(xs: seq<T>, typesOf: T -> seq<Amber>, key: seq<Amber>, wild: bool): (r: int)
    ensures -1 <= r < |xs|
    ensures r >= 0 ==> Equivalent(typesOf(xs[r]), key, wild)
    ensures forall k :: 0 <= k < |xs| && (r == -1 || k < r) ==> !Equivalent(typesOf(xs[k]), key, wild)
    decreases |xs|
  {
    if xs == [] then -1
    else if Equivalent(typesOf(xs[0]), key, wild) then 0
    else
      var r := IndexOf(xs[1..], typesOf, key, wild);
      if r == -1 then -1 else r + 1
  }

  /** Some entry of `xs` has types equivalent to `key`. */
  predicate Contains<T>(xs: seq<T>, typesOf: T -> seq<Amber>, key: seq<Amber>, wild: bool) {
    exists k :: 0 <= k < |xs| && Equivalent(typesOf(xs[k]), key, wild)
  }

  /** A list contains an equivalent entry exactly when the search finds
      one. */
  lemma ContainsIndex<T>(xs: seq<T>, typesOf: T -> seq<Amber>, key: seq<Amber>, wild: bool)
    ensures Contains(xs, typesOf, key, wild) <==> IndexOf(xs, typesOf, key, wild) != -1
  {
    var r := IndexOf(xs, typesOf, key, wild);
    if r != -1 {
      assert Equivalent(typesOf(xs[r]), key, wild);
    }
  }

  /** No two entries describe the same interaction. */
  predicate NoDuplicates<T>(xs: seq<T>, typesOf: T -> seq<Amber>) {
    forall p, q :: 0 <= p < q < |xs| ==> !Equivalent(typesOf(xs[p]), typesOf(xs[q]), false)
  }

  /** The list after adding `x`: the first entry equivalent to `x` is
      replaced by it, or `x` is appended when there is none. */
  function Added<T>(xs: seq<T>, x: T, typesOf: T -> seq<Amber>): seq<T> {
    var i := IndexOf(xs, typesOf, typesOf(x), false);
    if i == -1 then xs + [x] else xs[i := x]
  }

  /** After adding `x` the list holds `x`; it grows by one exactly when no
      entry was equivalent to `x`; and the entries not equivalent to `x`
      stay where they were. */
  lemma AddedHolds<T>(xs: seq<T>, x: T, typesOf: T -> seq<Amber>)
    ensures var r := Added(xs, x, typesOf);
      && x in r
      && (|r| == |xs| + 1 <==> !Contains(xs, typesOf, typesOf(x), false))
      && (|r| == |xs| <==> Contains(xs, typesOf, typesOf(x), false))
      && forall k :: 0 <= k < |xs| && !Equivalent(typesOf(xs[k]), typesOf(x), false) ==> r[k] == xs[k]
  {
    ContainsIndex(xs, typesOf, typesOf(x), false);
    var r := Added(xs, x, typesOf);
    var i := IndexOf(xs, typesOf, typesOf(x), false);
    if i == -1 {
      assert r[|xs|] == x;
    } else {
      assert r[i] == x;
    }
  }

  /** Adding the same parameter twice is adding it once. */
  lemma AddedIdempotent<T>(xs: seq<T>, x: T, typesOf: T -> seq<Amber>)
    ensures Added(Added(xs, x, typesOf), x, typesOf) == Added(xs, x, typesOf)
  {
    var r := Added(xs, x, typesOf);
    var i := IndexOf(xs, typesOf, typesOf(x), false);
    var j := if i == -1 then |xs| else i;
    EquivalentReflexive(typesOf(x), false);
    assert r[j] == x;
    assert IndexOf(r, typesOf, typesOf(x), false) == j by {
      IndexOfAt(r, typesOf, typesOf(x), j);
    }
  }

  /** The first equivalent entry is the one at `j` when the entry at `j`
      is equivalent and none before it is. */
  lemma {:induction false} IndexOfAt<T>(xs: seq<T>, typesOf: T -> seq<Amber>, key: seq<Amber>, j: nat)
    requires j < |xs| && Equivalent(typesOf(xs[j]), key, false)
    requires forall k :: 0 <= k < j ==> !Equivalent(typesOf(xs[k]), key, false)
    ensures IndexOf(xs, typesOf, key, false) == j
    decreases j
  {
    if j > 0 {
      assert xs[1..][j - 1] == xs[j];
      forall k | 0 <= k < j - 1
        ensures !Equivalent(typesOf(xs[1..][k]), key, false)
      {
        assert xs[1..][k] == xs[k + 1];
      }
      IndexOfAt(xs[1..], typesOf, key, j - 1);
    }
  }

  /** Adding keeps a list free of duplicates. */
  lemma AddedNoDuplicates<T>(xs: seq<T>, x: T, typesOf: T -> seq<Amber>)
    requires NoDuplicates(xs, typesOf)
    ensures NoDuplicates(Added(xs, x, typesOf), typesOf)
  {
    var r := Added(xs, x, typesOf);
    var i := IndexOf(xs, typesOf, typesOf(x), false);
    forall p, q | 0 <= p < q < |r|
      ensures !Equivalent(typesOf(r[p]), typesOf(r[q]), false)
    {
      if i == -1 {
        if q == |xs| {
          assert r[q] == x && r[p] == xs[p];
        } else {
          assert r[p] == xs[p] && r[q] == xs[q];
        }
      } else if q == i {
        // an earlier entry equivalent to `x` would have been found first
        assert r[p] == xs[p] && r[q] == x;
      } else if p == i {
        assert r[p] == x && r[q] == xs[q];
        if Equivalent(typesOf(x), typesOf(xs[q]), false) {
          EquivalentTransitive(typesOf(xs[i]), typesOf(x), typesOf(xs[q]));
        }
      } else {
        assert r[p] == xs[p] && r[q] == xs[q];
      }
    }
  }

  /** The list after one entry `p` of an update: skipped when it is
      invalid and invalid entries are skipped; appended when no entry is
      equivalent; put in place of the first equivalent entry when
      replacing; otherwise left out. */
  function MergedOne<T>(xs: seq<T>, p: T, replace: bool, skipInvalid: bool,
                        typesOf: T -> seq<Amber>, invalid: T -> bool): seq<T>
  {
    var i := IndexOf(xs, typesOf, typesOf(p), false);
    if invalid(p) && skipInvalid then xs
    else if i == -1 then xs + [p]
    else if replace then xs[i := p]
    else xs
  }

  /** The list after an update from the entries `from`, taken in order. */
  function Merged<T>(xs: seq<T>, from: seq<T>, replace: bool, skipInvalid: bool,
                     typesOf: T -> seq<Amber>, invalid: T -> bool): seq<T>
    decreases |from|
  {
    if from == [] then xs
    else
      var n := |from| - 1;
      MergedOne(Merged(xs, from[..n], replace, skipInvalid, typesOf, invalid), from[n], replace, skipInvalid, typesOf, invalid)
  }

  /** Taking one more entry of the update. */
  lemma MergedSnoc<T>(xs: seq<T>, from: seq<T>, k: nat, replace: bool, skipInvalid: bool,
                      typesOf: T -> seq<Amber>, invalid: T -> bool)
    requires k < |from|
    ensures Merged(xs, from[..k + 1], replace, skipInvalid, typesOf, invalid)
      == MergedOne(Merged(xs, from[..k], replace, skipInvalid, typesOf, invalid), from[k], replace, skipInvalid, typesOf, invalid)
  {
    assert from[..k + 1][..k] == from[..k];
  }

  /** One entry of an update either changes nothing or adds it as
      `Added` does. */
  lemma MergedOneIsAdded<T>(xs: seq<T>, p: T, replace: bool, skipInvalid: bool,
                            typesOf: T -> seq<Amber>, invalid: T -> bool)
    ensures var r := MergedOne(xs, p, replace, skipInvalid, typesOf, invalid);
      r == xs || r == Added(xs, p, typesOf)
    ensures !(invalid(p) && skipInvalid) && (replace || !Contains(xs, typesOf, typesOf(p), false)) ==>
      MergedOne(xs, p, replace, skipInvalid, typesOf, invalid) == Added(xs, p, typesOf)
  {
    ContainsIndex(xs, typesOf, typesOf(p), false);
  }

  /** Adding a parameter is updating with it alone, replacing and not
      skipping. */
  lemma AddedIsMerged<T>(xs: seq<T>, x: T, typesOf: T -> seq<Amber>, invalid: T -> bool)
    ensures Merged(xs, [x], true, false, typesOf, invalid) == Added(xs, x, typesOf)
  {
    assert [x][..0] == [];
  }

  /** Without replacing, an update keeps every existing entry where it was
      and only appends, at most one entry per entry of the update. */
  lemma {:induction false} MergedKeeps<T>(xs: seq<T>, from: seq<T>, skipInvalid: bool,
                                         typesOf: T -> seq<Amber>, invalid: T -> bool)
    ensures var r := Merged(xs, from, false, skipInvalid, typesOf, invalid);
      |xs| <= |r| <= |xs| + |from| && r[..|xs|] == xs
    decreases |from|
  {
    if from != [] {
      var n := |from| - 1;
      MergedKeeps(xs, from[..n], skipInvalid, typesOf, invalid);
      var prev := Merged(xs, from[..n], false, skipInvalid, typesOf, invalid);
      assert (prev + [from[n]])[..|xs|] == prev[..|xs|];
    }
  }

  /** Every entry after an update was in the list or in the update. */
  lemma {:induction false} MergedFrom<T>(xs: seq<T>, from: seq<T>, replace: bool, skipInvalid: bool,
                                        typesOf: T -> seq<Amber>, invalid: T -> bool)
    ensures var r := Merged(xs, from, replace, skipInvalid, typesOf, invalid);
      |r| <= |xs| + |from| && forall k :: 0 <= k < |r| ==> r[k] in xs || r[k] in from
    decreases |from|
  {
    if from != [] {
      var n := |from| - 1;
      MergedFrom(xs, from[..n], replace, skipInvalid, typesOf, invalid);
      var prev := Merged(xs, from[..n], replace, skipInvalid, typesOf, invalid);
      var r := Merged(xs, from, replace, skipInvalid, typesOf, invalid);
      forall k | 0 <= k < |r|
        ensures r[k] in xs || r[k] in from
      {
        if k < |prev| && r[k] == prev[k] {
          if prev[k] in from[..n] {
            var m :| 0 <= m < n && from[..n][m] == prev[k];
            assert from[m] == prev[k];
          }
        } else {
          assert r[k] == from[n];
        }
      }
    }
  }

  /** After an update the list has an entry equivalent to every entry of
      the update that was not skipped as invalid. */
  lemma {:induction false} MergedCovers<T>(xs: seq<T>, from: seq<T>, replace: bool, skipInvalid: bool,
                                          typesOf: T -> seq<Amber>, invalid: T -> bool)
    ensures var r := Merged(xs, from, replace, skipInvalid, typesOf, invalid);
      forall k :: 0 <= k < |from| && !(invalid(from[k]) && skipInvalid) ==>
        Contains(r, typesOf, typesOf(from[k]), false)
    decreases |from|
  {
    if from != [] {
      var n := |from| - 1;
      MergedCovers(xs, from[..n], replace, skipInvalid, typesOf, invalid);
      var prev := Merged(xs, from[..n], replace, skipInvalid, typesOf, invalid);
      var r := Merged(xs, from, replace, skipInvalid, typesOf, invalid);
      MergedOneIsAdded(prev, from[n], replace, skipInvalid, typesOf, invalid);
      forall k | 0 <= k < |from| && !(invalid(from[k]) && skipInvalid)
        ensures Contains(r, typesOf, typesOf(from[k]), false)
      {
        if k == n {
          ContainsIndex(prev, typesOf, typesOf(from[n]), false);
          if r == Added(prev, from[n], typesOf) {
            AddedHolds(prev, from[n], typesOf);
            var m :| 0 <= m < |r| && r[m] == from[n];
            EquivalentReflexive(typesOf(from[n]), false);
          }
        } else {
          assert from[..n][k] == from[k];
          AddedKeepsCover(prev, from[n], typesOf, typesOf(from[k]));
        }
      }
    }
  }

  /** Adding an entry keeps an equivalent of `key` in the list. */
  lemma AddedKeepsCover<T>(xs: seq<T>, x: T, typesOf: T -> seq<Amber>, key: seq<Amber>)
    requires Contains(xs, typesOf, key, false)
    ensures Contains(Added(xs, x, typesOf), typesOf, key, false)
  {
    var r := Added(xs, x, typesOf);
    var i := IndexOf(xs, typesOf, typesOf(x), false);
    var m :| 0 <= m < |xs| && Equivalent(typesOf(xs[m]), key, false);
    if i == m {
      assert r[m] == x;
      EquivalentSymmetric(typesOf(xs[m]), typesOf(x), false);
      EquivalentTransitive(typesOf(x), typesOf(xs[m]), key);
    } else {
      assert r[m] == xs[m];
    }
  }

  /** An update keeps a list free of duplicates. */
  lemma {:induction false} MergedNoDuplicates<T>(xs: seq<T>, from: seq<T>, replace: bool, skipInvalid: bool,
                                                typesOf: T -> seq<Amber>, invalid: T -> bool)
    requires NoDuplicates(xs, typesOf)
    ensures NoDuplicates(Merged(xs, from, replace, skipInvalid, typesOf, invalid), typesOf)
    decreases |from|
  {
    if from != [] {
      var n := |from| - 1;
      MergedNoDuplicates(xs, from[..n], replace, skipInvalid, typesOf, invalid);
      var prev := Merged(xs, from[..n], replace, skipInvalid, typesOf, invalid);
      MergedOneIsAdded(prev, from[n], replace, skipInvalid, typesOf, invalid);
      AddedNoDuplicates(prev, from[n], typesOf);
    }
  }

  // ---------------------------------------------------------------------
  // A parameter set

  /** The parameters of a geometry, one list per kind. */
  class Parameters {
    var atomicParameters: seq<AtomicParameter>
    var stretches: seq<Stretch>
    var bends: seq<Bend>
    var torsions: seq<Torsion>
    var improperTorsions: seq<ImproperTorsion>

    /** A new parameter set holds no parameters. */
    constructor ()
      ensures IsEmpty()
    {
      atomicParameters, stretches, bends, torsions, improperTorsions := [], [], [], [], [];
    }

    /** Whether the set holds no parameter of any kind. */
    function IsEmpty(): (r: bool)
      reads this
      ensures r <==> atomicParameters == [] && stretches == [] && bends == [] && torsions == [] && improperTorsions == []
    {
      if |atomicParameters| > 0 then false
      else if |stretches| > 0 then false
      else if |bends| > 0 then false
      else if |torsions| > 0 then false
      else if |improperTorsions| > 0 then false
      else true
    }

    method AddAtomicParameter(p: AtomicParameter)
      modifies this
      ensures atomicParameters == Added(old(atomicParameters), p, AtomicTypes) && !IsEmpty()
      ensures stretches == old(stretches) && bends == old(bends)
      ensures torsions == old(torsions) && improperTorsions == old(improperTorsions)
    {
      var index := IndexOf(atomicParameters, AtomicTypes, AtomicTypes(p), false);
      if index != -1 {
        if p != atomicParameters[index] {
          atomicParameters := atomicParameters[index := p];
        }
      } else {
        atomicParameters := atomicParameters + [p];
      }
    }

    method AddStretch(s: Stretch)
      modifies this
      ensures stretches == Added(old(stretches), s, StretchTypes) && !IsEmpty()
      ensures atomicParameters == old(atomicParameters) && bends == old(bends)
      ensures torsions == old(torsions) && improperTorsions == old(improperTorsions)
    {
      var index := IndexOf(stretches, StretchTypes, s.types, false);
      if index != -1 {
        if s != stretches[index] {
          stretches := stretches[index := s];
        }
      } else {
        stretches := stretches + [s];
      }
    }

    method AddBend(b: Bend)
      modifies this
      ensures bends == Added(old(bends), b, BendTypes) && !IsEmpty()
      ensures atomicParameters == old(atomicParameters) && stretches == old(stretches)
      ensures torsions == old(torsions) && improperTorsions == old(improperTorsions)
    {
      var index := IndexOf(bends, BendTypes, b.types, false);
      if index != -1 {
        if b != bends[index] {
          bends := bends[index := b];
        }
      } else {
        bends := bends + [b];
      }
    }

    method AddTorsion(t: Torsion)
      modifies this
      ensures torsions == Added(old(torsions), t, TorsionTypes) && !IsEmpty()
      ensures atomicParameters == old(atomicParameters) && stretches == old(stretches)
      ensures bends == old(bends) && improperTorsions == old(improperTorsions)
    {
      var index := IndexOf(torsions, TorsionTypes, t.types, false);
      if index != -1 {
        if t != torsions[index] {
          torsions := torsions[index := t];
        }
      } else {
        torsions := torsions + [t];
      }
    }

    method AddImproperTorsion(t: ImproperTorsion)
      modifies this
      ensures improperTorsions == Added(old(improperTorsions), t, ImproperTypes) && !IsEmpty()
      ensures atomicParameters == old(atomicParameters) && stretches == old(stretches)
      ensures bends == old(bends) && torsions == old(torsions)
    {
      var index := IndexOf(improperTorsions, ImproperTypes, t.types, false);
      if index != -1 {
        if t != improperTorsions[index] {
          improperTorsions := improperTorsions[index := t];
        }
      } else {
        improperTorsions := improperTorsions + [t];
      }
    }

    method UpdateAtomicParameters(updateFrom: Parameters, replace: bool, skipInvalid: bool)
      requires updateFrom != this
      modifies this
      ensures atomicParameters == Merged(old(atomicParameters), updateFrom.atomicParameters, replace, skipInvalid, AtomicTypes, AtomicInvalid)
      ensures stretches == old(stretches) && bends == old(bends)
      ensures torsions == old(torsions) && improperTorsions == old(improperTorsions)
    {
      var from := updateFrom.atomicParameters;
      for otherIndex := 0 to |from|
        invariant atomicParameters == Merged(old(atomicParameters), from[..otherIndex], replace, skipInvalid, AtomicTypes, AtomicInvalid)
        invariant stretches == old(stretches) && bends == old(bends)
        invariant torsions == old(torsions) && improperTorsions == old(improperTorsions)
      {
        MergedSnoc(old(atomicParameters), from, otherIndex, replace, skipInvalid, AtomicTypes, AtomicInvalid);
        var p := from[otherIndex];
        var thisIndex := IndexOf(atomicParameters, AtomicTypes, AtomicTypes(p), false);
        if !(p.mass == 0.0 && skipInvalid) {
          if thisIndex == -1 {
            atomicParameters := atomicParameters + [p];
          } else if replace {
            atomicParameters := atomicParameters[thisIndex := p];
          }
        }
      }
      assert from[..|from|] == from;
    }

    method UpdateStretches(updateFrom: Parameters, replace: bool, skipInvalid: bool)
      requires updateFrom != this
      modifies this
      ensures stretches == Merged(old(stretches), updateFrom.stretches, replace, skipInvalid, StretchTypes, StretchInvalid)
      ensures atomicParameters == old(atomicParameters) && bends == old(bends)
      ensures torsions == old(torsions) && improperTorsions == old(improperTorsions)
    {
      var from := updateFrom.stretches;
      for otherIndex := 0 to |from|
        invariant stretches == Merged(old(stretches), from[..otherIndex], replace, skipInvalid, StretchTypes, StretchInvalid)
        invariant atomicParameters == old(atomicParameters) && bends == old(bends)
        invariant torsions == old(torsions) && improperTorsions == old(improperTorsions)
      {
        MergedSnoc(old(stretches), from, otherIndex, replace, skipInvalid, StretchTypes, StretchInvalid);
        var thisIndex := IndexOf(stretches, StretchTypes, from[otherIndex].types, false);
        var s := from[otherIndex];
        if !(s.req == 0.0 && skipInvalid) {
          if thisIndex == -1 {
            stretches := stretches + [s];
          } else if replace {
            stretches := stretches[thisIndex := s];
          }
        }
      }
      assert from[..|from|] == from;
    }

    method UpdateBends(updateFrom: Parameters, replace: bool, skipInvalid: bool)
      requires updateFrom != this
      modifies this
      ensures bends == Merged(old(bends), updateFrom.bends, replace, skipInvalid, BendTypes, BendInvalid)
      ensures atomicParameters == old(atomicParameters) && stretches == old(stretches)
      ensures torsions == old(torsions) && improperTorsions == old(improperTorsions)
    {
      var from := updateFrom.bends;
      for otherIndex := 0 to |from|
        invariant bends == Merged(old(bends), from[..otherIndex], replace, skipInvalid, BendTypes, BendInvalid)
        invariant atomicParameters == old(atomicParameters) && stretches == old(stretches)
        invariant torsions == old(torsions) && improperTorsions == old(improperTorsions)
      {
        MergedSnoc(old(bends), from, otherIndex, replace, skipInvalid, BendTypes, BendInvalid);
        var b := from[otherIndex];
        var thisIndex := IndexOf(bends, BendTypes, b.types, false);
        if !(b.aeq == 0.0 && skipInvalid) {
          if thisIndex == -1 {
            bends := bends + [b];
          } else if replace {
            bends := bends[thisIndex := b];
          }
        }
      }
      assert from[..|from|] == from;
    }

    method UpdateTorsions(updateFrom: Parameters, replace: bool, skipInvalid: bool)
      requires updateFrom != this
      modifies this
      ensures torsions == Merged(old(torsions), updateFrom.torsions, replace, skipInvalid, TorsionTypes, TorsionInvalid)
      ensures atomicParameters == old(atomicParameters) && stretches == old(stretches)
      ensures bends == old(bends) && improperTorsions == old(improperTorsions)
    {
      var from := updateFrom.torsions;
      for otherIndex := 0 to |from|
        invariant torsions == Merged(old(torsions), from[..otherIndex], replace, skipInvalid, TorsionTypes, TorsionInvalid)
        invariant atomicParameters == old(atomicParameters) && stretches == old(stretches)
        invariant bends == old(bends) && improperTorsions == old(improperTorsions)
      {
        MergedSnoc(old(torsions), from, otherIndex, replace, skipInvalid, TorsionTypes, TorsionInvalid);
        var t := from[otherIndex];
        var thisIndex := IndexOf(torsions, TorsionTypes, t.types, false);
        if !(t.npaths == 0 && skipInvalid) {
          if thisIndex == -1 {
            torsions := torsions + [t];
          } else if replace {
            torsions := torsions[thisIndex := t];
          }
        }
      }
      assert from[..|from|] == from;
    }

    method UpdateImproperTorsions(updateFrom: Parameters, replace: bool, skipInvalid: bool)
      requires updateFrom != this
      modifies this
      ensures improperTorsions == Merged(old(improperTorsions), updateFrom.improperTorsions, replace, skipInvalid, ImproperTypes, ImproperInvalid)
      ensures atomicParameters == old(atomicParameters) && stretches == old(stretches)
      ensures bends == old(bends) && torsions == old(torsions)
    {
      var from := updateFrom.improperTorsions;
      for otherIndex := 0 to |from|
        invariant improperTorsions == Merged(old(improperTorsions), from[..otherIndex], replace, skipInvalid, ImproperTypes, ImproperInvalid)
        invariant atomicParameters == old(atomicParameters) && stretches == old(stretches)
        invariant bends == old(bends) && torsions == old(torsions)
      {
        MergedSnoc(old(improperTorsions), from, otherIndex, replace, skipInvalid, ImproperTypes, ImproperInvalid);
        var t := from[otherIndex];
        var thisIndex := IndexOf(improperTorsions, ImproperTypes, t.types, false);
        if !(t.barrierHeight == 0.0 && skipInvalid) {
          if thisIndex == -1 {
            improperTorsions := improperTorsions + [t];
          } else if replace {
            improperTorsions := improperTorsions[thisIndex := t];
          }
        }
      }
      assert from[..|from|] == from;
    }

    /** Updates every list from `updateFrom` in turn. The non-bonding
        settings it also copies are not part of this model. */
    method UpdateParameters(updateFrom: Parameters, replace: bool, skipInvalid: bool)
      requires updateFrom != this
      modifies this
      ensures atomicParameters == Merged(old(atomicParameters), updateFrom.atomicParameters, replace, skipInvalid, AtomicTypes, AtomicInvalid)
      ensures stretches == Merged(old(stretches), updateFrom.stretches, replace, skipInvalid, StretchTypes, StretchInvalid)
      ensures bends == Merged(old(bends), updateFrom.bends, replace, skipInvalid, BendTypes, BendInvalid)
      ensures torsions == Merged(old(torsions), updateFrom.torsions, replace, skipInvalid, TorsionTypes, TorsionInvalid)
      ensures improperTorsions == Merged(old(improperTorsions), updateFrom.improperTorsions, replace, skipInvalid, ImproperTypes, ImproperInvalid)
    {
      UpdateAtomicParameters(updateFrom, replace, skipInvalid);
      UpdateStretches(updateFrom, replace, skipInvalid);
      UpdateBends(updateFrom, replace, skipInvalid);
      UpdateTorsions(updateFrom, replace, skipInvalid);
      UpdateImproperTorsions(updateFrom, replace, skipInvalid);
    }
  }
}
