/**
 * The integer charge-increment search of the amino-acid template validator
 * (Assets/Resources/Data/AminoAcids/validate.py).
 *
 * Every AMBER atom-type code is given an integer charge increment. A residue
 * template implies the charge sum over codes of increment * atom count, and a
 * vector of increments is scored by the total absolute error against the
 * declared residue charges. A genetic search (uniform crossover, point
 * mutation, elite selection) and an exhaustive walk over a Cartesian product
 * of allowed increments look for a vector with score zero.
 *
 * numpy's random generator is a parameter: `rand(i)` is the i-th number it
 * hands out, and `randint(n)` / `choice(xs)` take that number modulo the
 * number of alternatives.
 */
module ChargeSearch {
  import opened Wrappers
  import opened Arith

  /** The AMBER codes in Python's `sorted` order ('*' sorts before letters). */
  const AmberNames: seq<string> := [
    "C", "C*", "CA", "CB", "CC", "CD", "CK", "CN", "CR", "CT", "CV", "CW",
    "H", "H1", "H2", "H3", "H4", "H5", "HA", "HC", "HO", "HP", "HS",
    "N", "N2", "N3", "NA", "NB", "O", "O2", "OH", "S", "SH"]

  const NumAmberNames: nat := 33

  // Allowed increment ranges, named as in the script.
  const M4_P4: seq<int> := [-4, -3, -2, -1, 0, 1, 2, 3, 4]
  const M3_P5: seq<int> := [-3, -2, -1, 0, 1, 2, 3, 4, 5]
  const M2_M1: seq<int> := [-2, -1]
  const M2_Z: seq<int> := [-2, -1, 0]
  const M1: seq<int> := [-1]
  const M1_Z: seq<int> := [-1, 0]
  const M1_P1: seq<int> := [-1, 0, 1]
  const Z: seq<int> := [0]
  const Z_P1: seq<int> := [0, 1]
  const P1: seq<int> := [1]

  /** `flexible_charges`: the wide ranges the genetic search mutates within, indexed like AmberNames. */
  const FlexibleCharges: seq<seq<int>> := [
    M4_P4, M4_P4, M4_P4, M4_P4, M4_P4, M4_P4, M4_P4, M4_P4, M4_P4, M4_P4, M4_P4, M4_P4,
    P1, M1_P1, M1_P1, M1_P1, M1_P1, M1_P1, M1_P1, M1_P1, P1, M1_P1, M1_P1,
    M3_P5, M3_P5, M3_P5, M3_P5, M3_P5, M2_Z, M2_Z, M2_Z, M2_Z, M2_Z]

  /** `possible_charges`: the tight ranges the exhaustive search enumerates, indexed like AmberNames. */
  const PossibleCharges: seq<seq<int>> := [
    P1, Z, Z, Z, Z, M1_P1, M1_P1, Z, M1_P1, Z, M1_P1, M1_P1,
    P1, Z, Z_P1, Z_P1, Z_P1, Z_P1, Z, Z, Z_P1, Z_P1, Z_P1,
    M2_Z, M2_Z, M2_Z, M1_Z, M1_Z, M2_Z, M1, M2_M1, Z, M1]

  lemma TablesWellFormed()
    ensures |AmberNames| == |FlexibleCharges| == |PossibleCharges| == NumAmberNames
    ensures NonEmptyRanges(FlexibleCharges) && NonEmptyRanges(PossibleCharges)
  {
  }

  /** No code is listed twice (the vocabulary is the sorted key list of a dictionary). */
  ghost predicate Distinct(names: seq<string>) {
    forall i, j :: 0 <= i < j < |names| ==> names[i] != names[j]
  }

  /** Every gene has at least one allowed value. */
  ghost predicate NonEmptyRanges(ranges: seq<seq<int>>) {
    forall i :: 0 <= i < |ranges| ==> |ranges[i]| > 0
  }

  // ---------------------------------------------------------------------
  // Loading a residue template (class AminoAcid)
  // ---------------------------------------------------------------------

  /**
   * One line of a template file, reduced to the two attributes the loader
   * extracts from it: the `charge="…"` of a `<residue ` line (already
   * converted by `int(float(…))`) and the `amber="…"` of an atom line.
   */
  datatype TemplateLine = TemplateLine(residueCharge: Option<int>, amber: Option<string>)

  datatype AminoAcid = AminoAcid(charge: int, ambers: seq<string>, amberCount: seq<int>)

  /** `amber_names.index(amber)` raises ValueError for a code outside the vocabulary. */
  datatype LoadError = UnknownAmber(amber: string)

  /** The AMBER codes of the template's atom lines, in file order. */
  function AmbersOf(lines: seq<TemplateLine>): (r: seq<string>)
    ensures |r| <= |lines|
  {
    if lines == [] then []
    else
      var rest := AmbersOf(lines[..|lines| - 1]);
      var last := lines[|lines| - 1];
      if last.amber.Some? then rest + [last.amber.value] else rest
  }

  /** The charge of the last `<residue ` line, or 0 when there is none. */
  function LastCharge(lines: seq<TemplateLine>): int
  {
    if lines == [] then 0
    else if lines[|lines| - 1].residueCharge.Some? then lines[|lines| - 1].residueCharge.value
    else LastCharge(lines[..|lines| - 1])
  }

  /** Position of `x` in `names`, as `list.index` finds it. */
  function IndexOf(names: seq<string>, x: string): (r: Option<nat>)
    ensures r.Some? ==> r.value < |names| && names[r.value] == x
    ensures r.Some? ==> forall j :: 0 <= j < r.value ==> names[j] != x
    ensures r.None? <==> x !in names
  {
    if names == [] then None
    else if names[0] == x then Some(0)
    else
      var t := IndexOf(names[1..], x);
      if t.Some? then Some(t.value + 1) else None
  }

  /** The count vector: how many atoms of the template carry each code. */
  function CountVector(names: seq<string>, ambers: seq<string>): (r: seq<int>)
    ensures |r| == |names|
  {
    seq(|names|, i requires 0 <= i < |names| => multiset(ambers)[names[i]])
  }

  /**
   * `AminoAcid.__init__`: the template's charge is that of its last residue
   * line, every atom line's code is counted, and the first code outside the
   * vocabulary `names` (the module-level `amber_names`) aborts the load.
   */
  method Load(names: seq<string>, lines: seq<TemplateLine>) returns (r: Result<AminoAcid, LoadError>)
    requires Distinct(names)
    ensures r.Ok? <==> forall a :: a in AmbersOf(lines) ==> a in names
    ensures r.Ok? ==> r.value == AminoAcid(LastCharge(lines), AmbersOf(lines), CountVector(names, AmbersOf(lines)))
    ensures r.Err? ==> r.error.amber in AmbersOf(lines) && r.error.amber !in names
  {
    var charge := 0;
    var ambers: seq<string> := [];
    var count: seq<int> := seq(|names|, _ => 0);
    assert count == CountVector(names, []);
    var i := 0;
    while i < |lines|
      invariant 0 <= i <= |lines|
      invariant charge == LastCharge(lines[..i])
      invariant ambers == AmbersOf(lines[..i])
      invariant AllIn(ambers, names)
      invariant count == CountVector(names, ambers)
    {
      var line := lines[i];
      LineStep(lines, i);
      if line.residueCharge.Some? {
        charge := line.residueCharge.value;
      }
      if line.amber.Some? {
        var a := line.amber.value;
        var index := IndexOf(names, a);
        if index.None? {
          assert AmbersOf(lines[..i + 1]) == ambers + [a];
          AmberIsRead(lines, i + 1, a);
          return Err(UnknownAmber(a));
        }
        CountVectorAppend(names, ambers, a, index.value);
        AllInAppend(ambers, names, a);
        ambers := ambers + [a];
        count := count[index.value := count[index.value] + 1];
      }
      i := i + 1;
    }
    assert lines[..i] == lines;
    r := Ok(AminoAcid(charge, ambers, count));
  }

  /** Appending an atom of code k adds one to entry k of the count vector and nothing else. */
  lemma CountVectorAppend(names: seq<string>, ambers: seq<string>, a: string, k: nat)
    requires Distinct(names) && k < |names| && names[k] == a
    ensures CountVector(names, ambers + [a]) == CountVector(names, ambers)[k := CountVector(names, ambers)[k] + 1]
  {
    assert multiset(ambers + [a]) == multiset(ambers) + multiset{a};
  }

  /** Every code of `xs` is in the vocabulary `names`. */
  ghost predicate AllIn(xs: seq<string>, names: seq<string>) {
    forall a :: a in xs ==> a in names
  }

  lemma AllInAppend(xs: seq<string>, names: seq<string>, a: string)
    requires AllIn(xs, names) && a in names
    ensures AllIn(xs + [a], names)
  {
  }

  /** Reading line i updates the charge and the code list as the loader does. */
  lemma LineStep(lines: seq<TemplateLine>, i: nat)
    requires i < |lines|
    ensures LastCharge(lines[..i + 1]) ==
      if lines[i].residueCharge.Some? then lines[i].residueCharge.value else LastCharge(lines[..i])
    ensures AmbersOf(lines[..i + 1]) ==
      if lines[i].amber.Some? then AmbersOf(lines[..i]) + [lines[i].amber.value] else AmbersOf(lines[..i])
  {
    assert lines[..i + 1][..i] == lines[..i];
  }

  /** A code read from a prefix of the file is among the codes of the whole file. */
  lemma AmberIsRead(lines: seq<TemplateLine>, n: nat, a: string)
    requires n <= |lines| && a in AmbersOf(lines[..n])
    ensures a in AmbersOf(lines)
  {
    AmbersPrefix(lines, n);
    var k :| 0 <= k < |AmbersOf(lines[..n])| && AmbersOf(lines[..n])[k] == a;
    assert AmbersOf(lines)[k] == a;
  }

  /** The codes read from a prefix of the file are a prefix of all codes read. */
  lemma {:induction false} AmbersPrefix(lines: seq<TemplateLine>, n: nat)
    requires n <= |lines|
    ensures AmbersOf(lines[..n]) <= AmbersOf(lines)
    decreases |lines|
  {
    if n < |lines| {
      var init := lines[..|lines| - 1];
      AmbersPrefix(init, n);
      assert init[..n] == lines[..n];
    } else {
      assert lines[..n] == lines;
    }
  }

  // ---------------------------------------------------------------------
  // Implied charge and score (_get_charge, _get_combination_score)
  // ---------------------------------------------------------------------

  /** Sum over the first n codes of `u[i] * w[i]`. */
  function Dot(u: seq<int>, w: seq<int>, n: nat): int
    requires n <= |u| && n <= |w|
  {
    if n == 0 then 0 else Dot(u, w, n - 1) + u[n - 1] * w[n - 1]
  }

  /** `_get_charge`: the accumulator loop computes the implied charge. */
  method GetCharge(amberCharges: seq<int>, amberCount: seq<int>, length: nat) returns (charge: int)
    requires length <= |amberCharges| && length <= |amberCount|
    ensures charge == Dot(amberCharges, amberCount, length)
  {
    charge := 0;
    var i := 0;
    while i < length
      invariant 0 <= i <= length
      invariant charge == Dot(amberCharges, amberCount, i)
    {
      charge := charge + amberCharges[i] * amberCount[i];
      i := i + 1;
    }
  }

  /** The increment of every atom of the template, added up atom by atom. */
  function PerAtomSum(names: seq<string>, v: seq<int>, ambers: seq<string>): int
    requires |v| >= |names|
    requires forall a :: a in ambers ==> a in names
  {
    if ambers == [] then 0
    else
      var k := IndexOf(names, ambers[|ambers| - 1]).value;
      PerAtomSum(names, v, ambers[..|ambers| - 1]) + v[k]
  }

  /** Adding one atom of code k adds that code's increment to the dot product. */
  lemma {:induction false} DotIncrement(v: seq<int>, w: seq<int>, k: nat, n: nat)
    requires k < |w| && n <= |v| && n <= |w|
    ensures Dot(v, w[k := w[k] + 1], n) == Dot(v, w, n) + (if k < n then v[k] else 0)
  {
    if n > 0 {
      DotIncrement(v, w, k, n - 1);
      if n - 1 == k {
        Distrib(v[k], w[k], 1);
      }
    }
  }

  /**
   * The implied charge of a loaded template (increments dotted with its count
   * vector) equals the sum of the increments of its atoms.
   */
  lemma {:induction false} ImpliedChargeIsPerAtomSum(names: seq<string>, v: seq<int>, ambers: seq<string>)
    requires Distinct(names) && |v| >= |names|
    requires forall a :: a in ambers ==> a in names
    ensures Dot(v, CountVector(names, ambers), |names|) == PerAtomSum(names, v, ambers)
  {
    if ambers == [] {
      DotZero(v, CountVector(names, ambers), |names|);
    } else {
      var init := ambers[..|ambers| - 1];
      var last := ambers[|ambers| - 1];
      assert ambers == init + [last];
      assert forall a :: a in init ==> a in ambers;
      ImpliedChargeIsPerAtomSum(names, v, init);
      var k := IndexOf(names, last).value;
      CountVectorAppend(names, init, last, k);
      DotIncrement(v, CountVector(names, init), k, |names|);
    }
  }

  lemma DotZero(v: seq<int>, w: seq<int>, n: nat)
    requires n <= |v| && n <= |w|
    requires forall i :: 0 <= i < n ==> w[i] == 0
    ensures Dot(v, w, n) == 0
  {
    if n > 0 {
      DotZero(v, w, n - 1);
    }
  }

  /**
   * The data of one search: the declared charge of each residue and its
   * count vector (`amino_acid_charges`, `amber_counts`), and the number of
   * codes per vector.
   */
  datatype Problem = Problem(targets: seq<int>, counts: seq<seq<int>>, numAmbers: nat)
  {
    predicate Valid() {
      |counts| == |targets| && forall i :: 0 <= i < |counts| ==> |counts[i]| == numAmbers
    }
  }

  /** Sum over the first m residues of |declared charge - implied charge|. */
  function ScoreUpTo(p: Problem, v: seq<int>, m: nat): (r: int)
    requires p.Valid() && |v| >= p.numAmbers && m <= |p.targets|
    ensures r >= 0
  {
    if m == 0 then 0
    else ScoreUpTo(p, v, m - 1) + Abs(p.targets[m - 1] - Dot(p.counts[m - 1], v, p.numAmbers))
  }

  function Score(p: Problem, v: seq<int>): int
    requires p.Valid() && |v| >= p.numAmbers
  {
    ScoreUpTo(p, v, |p.targets|)
  }

  /** The vector gives every residue (among the first m) exactly its declared charge. */
  ghost predicate AllMatchUpTo(p: Problem, v: seq<int>, m: nat)
    requires p.Valid() && |v| >= p.numAmbers && m <= |p.targets|
  {
    forall i :: 0 <= i < m ==> Dot(p.counts[i], v, p.numAmbers) == p.targets[i]
  }

  /** The score is zero exactly when every residue's implied charge is its declared charge. */
  lemma {:induction false} ScoreZeroIff(p: Problem, v: seq<int>, m: nat)
    requires p.Valid() && |v| >= p.numAmbers && m <= |p.targets|
    ensures ScoreUpTo(p, v, m) == 0 <==> AllMatchUpTo(p, v, m)
  {
    if m > 0 {
      ScoreZeroIff(p, v, m - 1);
    }
  }

  /** `_get_combination_score`: two nested accumulator loops. */
  method CombinationScore(amberCharges: seq<int>, aminoAcidCharges: seq<int>, amberCounts: seq<seq<int>>,
                          numAmbers: nat, numAminoAcids: nat) returns (score: int)
    requires Problem(aminoAcidCharges, amberCounts, numAmbers).Valid()
    requires numAmbers <= |amberCharges| && numAminoAcids == |aminoAcidCharges|
    ensures score == Score(Problem(aminoAcidCharges, amberCounts, numAmbers), amberCharges)
    ensures score >= 0
  {
    ghost var p := Problem(aminoAcidCharges, amberCounts, numAmbers);
    score := 0;
    var i := 0;
    while i < numAminoAcids
      invariant 0 <= i <= numAminoAcids
      invariant score == ScoreUpTo(p, amberCharges, i)
    {
      var targetCharge := aminoAcidCharges[i];
      var resultCharge := 0;
      var j := 0;
      while j < numAmbers
        invariant 0 <= j <= numAmbers
        invariant resultCharge == Dot(amberCounts[i], amberCharges, j)
      {
        resultCharge := resultCharge + amberCounts[i][j] * amberCharges[j];
        j := j + 1;
      }
      score := score + Abs(targetCharge - resultCharge);
      i := i + 1;
    }
  }

  // ---------------------------------------------------------------------
  // Mutation and breeding (mutate_gene, mutate, breed)
  // ---------------------------------------------------------------------

  /**
   * `mutate`: `rate` times, draw an index below `length` and set that gene to
   * a value drawn from its flexible range. Two draws per mutation, starting
   * at draw number `pos`.
   */
  function MutateSpec(flexible: seq<seq<int>>, s: seq<int>, length: nat, rate: nat, rand: nat -> nat, pos: nat): (r: seq<int>)
    requires 0 < length <= |s| && length <= |flexible| && NonEmptyRanges(flexible)
    ensures |r| == |s|
    decreases rate
  {
    if rate == 0 then s
    else
      var index := rand(pos) % length;
      var range := flexible[index];
      MutateSpec(flexible, s[index := range[rand(pos + 1) % |range|]], length, rate - 1, rand, pos + 2)
  }

  /** The indices `mutate` draws. */
  function MutatedIndices(length: nat, rate: nat, rand: nat -> nat, pos: nat): (r: set<nat>)
    requires 0 < length
    decreases rate
  {
    if rate == 0 then {} else {rand(pos) % length} + MutatedIndices(length, rate - 1, rand, pos + 2)
  }

  lemma {:induction false} MutatedIndicesBound(length: nat, rate: nat, rand: nat -> nat, pos: nat)
    requires 0 < length
    ensures |MutatedIndices(length, rate, rand, pos)| <= rate
    ensures forall i :: i in MutatedIndices(length, rate, rand, pos) ==> i < length
    decreases rate
  {
    if rate > 0 {
      MutatedIndicesBound(length, rate - 1, rand, pos + 2);
    }
  }

  function ChangedPositions(s: seq<int>, t: seq<int>): set<nat>
    requires |s| == |t|
  {
    set i: nat | i < |s| && s[i] != t[i]
  }

  /**
   * Only drawn positions change, and a changed gene holds a value of its
   * position's flexible range.
   */
  lemma {:induction false} MutateLocal(flexible: seq<seq<int>>, s: seq<int>, length: nat, rate: nat, rand: nat -> nat, pos: nat)
    requires 0 < length <= |s| && length <= |flexible| && NonEmptyRanges(flexible)
    ensures forall i :: 0 <= i < |s| && i !in MutatedIndices(length, rate, rand, pos) ==>
              MutateSpec(flexible, s, length, rate, rand, pos)[i] == s[i]
    ensures forall i :: 0 <= i < |s| && MutateSpec(flexible, s, length, rate, rand, pos)[i] != s[i] ==>
              i < length && MutateSpec(flexible, s, length, rate, rand, pos)[i] in flexible[i]
    decreases rate
  {
    if rate > 0 {
      var index := rand(pos) % length;
      var range := flexible[index];
      var s' := s[index := range[rand(pos + 1) % |range|]];
      MutateLocal(flexible, s', length, rate - 1, rand, pos + 2);
    }
  }

  /** `mutate` changes at most `rate` positions. */
  lemma MutateChangesAtMostRate(flexible: seq<seq<int>>, s: seq<int>, length: nat, rate: nat, rand: nat -> nat, pos: nat)
    requires 0 < length <= |s| && length <= |flexible| && NonEmptyRanges(flexible)
    ensures |ChangedPositions(s, MutateSpec(flexible, s, length, rate, rand, pos))| <= rate
  {
    MutateLocal(flexible, s, length, rate, rand, pos);
    MutatedIndicesBound(length, rate, rand, pos);
    var changed := ChangedPositions(s, MutateSpec(flexible, s, length, rate, rand, pos));
    var drawn := MutatedIndices(length, rate, rand, pos);
    assert changed <= drawn;
    SubsetCard(changed, drawn);
  }

  lemma SubsetCard<T>(a: set<T>, b: set<T>)
    requires a <= b
    ensures |a| <= |b|
  {
    assert b == a + (b - a);
  }

  /** `mutate_gene` / `mutate`, rewriting the numpy array in place; returns the next unused draw. */
  method Mutate(flexible: seq<seq<int>>, combination: array<int>, rate: nat, length: nat, rand: nat -> nat, pos: nat) returns (next: nat)
    requires 0 < length <= combination.Length && length <= |flexible| && NonEmptyRanges(flexible)
    modifies combination
    ensures combination[..] == MutateSpec(flexible, old(combination[..]), length, rate, rand, pos)
    ensures next == pos + 2 * rate
  {
    next := pos;
    var i := 0;
    while i < rate
      invariant 0 <= i <= rate
      invariant next == pos + 2 * i
      invariant MutateSpec(flexible, combination[..], length, rate - i, rand, next)
             == MutateSpec(flexible, old(combination[..]), length, rate, rand, pos)
    {
      var index := rand(next) % length;
      var possibleValues := flexible[index];
      combination[index] := possibleValues[rand(next + 1) % |possibleValues|];
      next := next + 2;
      i := i + 1;
    }
  }

  /** The crossover of `breed`: gene i is a fair coin's choice between the parents' genes i. */
  function Cross(c0: seq<int>, c1: seq<int>, length: nat, rand: nat -> nat, pos: nat): (r: seq<int>)
    requires length <= |c0| && length <= |c1|
    ensures |r| == length
    ensures forall i :: 0 <= i < length ==> r[i] == c0[i] || r[i] == c1[i]
  {
    seq(length, i requires 0 <= i < length => if rand(pos + i) % 2 == 0 then c0[i] else c1[i])
  }

  /** Number of draws one child of `breed` consumes. */
  function ChildDraws(length: nat, rate: nat): nat { length + 2 * rate }

  /** The draw at which child k of a `breed` call starts. */
  function ChildStart(pos: nat, k: nat, draws: nat): nat {
    if k == 0 then pos else ChildStart(pos, k - 1, draws) + draws
  }

  function Child(flexible: seq<seq<int>>, c0: seq<int>, c1: seq<int>, length: nat, rate: nat, rand: nat -> nat, pos: nat): seq<int>
    requires 0 < length <= |c0| && length <= |c1| && length <= |flexible| && NonEmptyRanges(flexible)
  {
    MutateSpec(flexible, Cross(c0, c1, length, rand, pos), length, rate, rand, pos + length)
  }

  /**
   * Every gene of a bred child comes from one of its parents, unless a
   * mutation replaced it with a value of that gene's flexible range.
   */
  lemma ChildGenes(flexible: seq<seq<int>>, c0: seq<int>, c1: seq<int>, length: nat, rate: nat, rand: nat -> nat, pos: nat)
    requires 0 < length <= |c0| && length <= |c1| && length <= |flexible| && NonEmptyRanges(flexible)
    ensures |Child(flexible, c0, c1, length, rate, rand, pos)| == length
    ensures forall i :: 0 <= i < length ==>
              var g := Child(flexible, c0, c1, length, rate, rand, pos)[i];
              g == c0[i] || g == c1[i] || g in flexible[i]
  {
    MutateLocal(flexible, Cross(c0, c1, length, rand, pos), length, rate, rand, pos + length);
  }

  /** The list comprehension of `breed`, built into a fresh numpy array. */
  method Crossover(c0: seq<int>, c1: seq<int>, length: nat, rand: nat -> nat, pos: nat) returns (a: array<int>)
    requires length <= |c0| && length <= |c1|
    ensures fresh(a) && a[..] == Cross(c0, c1, length, rand, pos)
  {
    a := new int[length];
    var i := 0;
    while i < length
      invariant 0 <= i <= length
      invariant a[..i] == Cross(c0, c1, length, rand, pos)[..i]
    {
      a[i] := if rand(pos + i) % 2 == 0 then c0[i] else c1[i];
      i := i + 1;
    }
    assert a[..] == a[..length];
  }

  /** Every vector of the list has n genes. */
  ghost predicate AllOfLength(xs: seq<seq<int>>, n: nat) {
    forall i :: 0 <= i < |xs| ==> |xs[i]| == n
  }

  lemma AllOfLengthConcat(xs: seq<seq<int>>, ys: seq<seq<int>>, n: nat)
    requires AllOfLength(xs, n) && AllOfLength(ys, n)
    ensures AllOfLength(xs + ys, n)
  {
  }

  /** One child of `breed`: the crossover, then its mutation; returns the next unused draw. */
  method BreedChild(flexible: seq<seq<int>>, c0: seq<int>, c1: seq<int>, rate: nat, length: nat, rand: nat -> nat, pos: nat)
    returns (child: seq<int>, next: nat)
    requires 0 < length <= |c0| && length <= |c1| && length <= |flexible| && NonEmptyRanges(flexible)
    ensures child == Child(flexible, c0, c1, length, rate, rand, pos) && |child| == length
    ensures next == pos + ChildDraws(length, rate)
  {
    var newCombination := Crossover(c0, c1, length, rand, pos);
    next := Mutate(flexible, newCombination, rate, length, rand, pos + length);
    child := newCombination[..];
  }

  /** The first n children of a `breed` call whose first draw is `pos`. */
  function Offspring(flexible: seq<seq<int>>, c0: seq<int>, c1: seq<int>, n: nat, rate: nat, length: nat,
                     rand: nat -> nat, pos: nat): (r: seq<seq<int>>)
    requires 0 < length <= |c0| && length <= |c1| && length <= |flexible| && NonEmptyRanges(flexible)
    ensures |r| == n
  {
    if n == 0 then []
    else
      Offspring(flexible, c0, c1, n - 1, rate, length, rand, pos)
        + [Child(flexible, c0, c1, length, rate, rand, ChildStart(pos, n - 1, ChildDraws(length, rate)))]
  }

  /** Child k of a `breed` call starts at draw ChildStart(pos, k, …). */
  lemma {:induction false} OffspringAt(flexible: seq<seq<int>>, c0: seq<int>, c1: seq<int>, n: nat, rate: nat, length: nat,
                                       rand: nat -> nat, pos: nat, k: nat)
    requires 0 < length <= |c0| && length <= |c1| && length <= |flexible| && NonEmptyRanges(flexible)
    requires k < n
    ensures Offspring(flexible, c0, c1, n, rate, length, rand, pos)[k]
         == Child(flexible, c0, c1, length, rate, rand, ChildStart(pos, k, ChildDraws(length, rate)))
  {
    if k < n - 1 {
      OffspringAt(flexible, c0, c1, n - 1, rate, length, rand, pos, k);
    }
  }

  /** Breeding one more child appends it to the offspring and moves the draws on by one child's worth. */
  lemma OffspringStep(flexible: seq<seq<int>>, c0: seq<int>, c1: seq<int>, k: nat, rate: nat, length: nat,
                      rand: nat -> nat, pos: nat, child: seq<int>)
    requires 0 < length <= |c0| && length <= |c1| && length <= |flexible| && NonEmptyRanges(flexible)
    requires child == Child(flexible, c0, c1, length, rate, rand, ChildStart(pos, k, ChildDraws(length, rate)))
    ensures Offspring(flexible, c0, c1, k + 1, rate, length, rand, pos)
         == Offspring(flexible, c0, c1, k, rate, length, rand, pos) + [child]
    ensures ChildStart(pos, k + 1, ChildDraws(length, rate)) == ChildStart(pos, k, ChildDraws(length, rate)) + ChildDraws(length, rate)
  {
  }

  /** `breed`: `numOffspring` children, each crossed over and then mutated, drawing one after the other. */
  method Breed(flexible: seq<seq<int>>, c0: seq<int>, c1: seq<int>, numOffspring: nat, rate: nat, length: nat, rand: nat -> nat, pos: nat)
    returns (offspring: seq<seq<int>>, next: nat)
    requires 0 < length <= |c0| && length <= |c1| && length <= |flexible| && NonEmptyRanges(flexible)
    ensures offspring == Offspring(flexible, c0, c1, numOffspring, rate, length, rand, pos)
    ensures next == ChildStart(pos, numOffspring, ChildDraws(length, rate))
    ensures AllOfLength(offspring, length)
  {
    offspring := [];
    next := pos;
    var k := 0;
    while k < numOffspring
      invariant 0 <= k <= numOffspring
      invariant next == ChildStart(pos, k, ChildDraws(length, rate))
      invariant offspring == Offspring(flexible, c0, c1, k, rate, length, rand, pos)
    {
      var child;
      child, next := BreedChild(flexible, c0, c1, rate, length, rand, next);
      OffspringStep(flexible, c0, c1, k, rate, length, rand, pos, child);
      offspring := offspring + [child];
      k := k + 1;
    }
    OffspringLengths(flexible, c0, c1, numOffspring, rate, length, rand, pos);
  }

  /** Every child has one gene per amber. */
  lemma {:induction false} OffspringLengths(flexible: seq<seq<int>>, c0: seq<int>, c1: seq<int>, n: nat, rate: nat, length: nat,
                                            rand: nat -> nat, pos: nat)
    requires 0 < length <= |c0| && length <= |c1| && length <= |flexible| && NonEmptyRanges(flexible)
    ensures AllOfLength(Offspring(flexible, c0, c1, n, rate, length, rand, pos), length)
  {
    if n > 0 {
      OffspringLengths(flexible, c0, c1, n - 1, rate, length, rand, pos);
      var child := Child(flexible, c0, c1, length, rate, rand, ChildStart(pos, n - 1, ChildDraws(length, rate)));
      AllOfLengthConcat(Offspring(flexible, c0, c1, n - 1, rate, length, rand, pos), [child], length);
    }
  }

  // ---------------------------------------------------------------------
  // Elite selection (get_best)
  // ---------------------------------------------------------------------

  ghost predicate ScoredVectors(p: Problem, xs: seq<seq<int>>) {
    p.Valid() && forall o :: o in xs ==> |o| >= p.numAmbers
  }

  /** The sort key of `get_best`: a vector's score (0 for a vector too short to score). */
  function ScoreKey(p: Problem, o: seq<int>): int {
    if p.Valid() && |o| >= p.numAmbers then Score(p, o) else 0
  }

  /**
   * One step of Python's stable `sorted`: an element goes before the first
   * element whose key is not smaller than its own.
   */
  function InsertByScore(p: Problem, x: seq<int>, s: seq<seq<int>>): (r: seq<seq<int>>)
    ensures |r| == |s| + 1
    ensures multiset(r) == multiset(s) + multiset{x}
  {
    if s == [] then [x]
    else if ScoreKey(p, x) <= ScoreKey(p, s[0]) then [x] + s
    else
      assert s == [s[0]] + s[1..];
      [s[0]] + InsertByScore(p, x, s[1..])
  }

  ghost predicate SortedByScore(p: Problem, s: seq<seq<int>>) {
    forall i, j :: 0 <= i < j < |s| ==> ScoreKey(p, s[i]) <= ScoreKey(p, s[j])
  }

  /** Every element the inserted list holds is x or was already there, and so keys no lower than a bound. */
  lemma InsertLowerBound(p: Problem, x: seq<int>, s: seq<seq<int>>, bound: int)
    requires ScoreKey(p, x) >= bound && forall e :: e in s ==> ScoreKey(p, e) >= bound
    ensures forall e :: e in InsertByScore(p, x, s) ==> ScoreKey(p, e) >= bound
  {
    var r := InsertByScore(p, x, s);
    forall e | e in r ensures ScoreKey(p, e) >= bound {
      assert e in multiset(r);
      assert e in multiset(s) || e == x;
    }
  }

  /** The head of a sorted list scores no higher than any of its elements, and its tail is sorted. */
  lemma HeadIsLeast(p: Problem, s: seq<seq<int>>)
    requires SortedByScore(p, s) && s != []
    ensures forall e :: e in s ==> ScoreKey(p, s[0]) <= ScoreKey(p, e)
    ensures SortedByScore(p, s[1..])
  {
    var tail := s[1..];
    forall i, j | 0 <= i < j < |tail| ensures ScoreKey(p, tail[i]) <= ScoreKey(p, tail[j]) {
      assert tail[i] == s[i + 1] && tail[j] == s[j + 1];
    }
  }

  /** Putting an element that scores no higher than the rest in front of a sorted list keeps it sorted. */
  lemma ConsSorted(p: Problem, h: seq<int>, t: seq<seq<int>>)
    requires SortedByScore(p, t) && forall e :: e in t ==> ScoreKey(p, h) <= ScoreKey(p, e)
    ensures SortedByScore(p, [h] + t)
  {
    var r := [h] + t;
    forall i, j | 0 <= i < j < |r| ensures ScoreKey(p, r[i]) <= ScoreKey(p, r[j]) {
      assert r[j] == t[j - 1];
      if i > 0 {
        assert r[i] == t[i - 1];
      }
    }
  }

  lemma {:induction false} InsertKeepsSorted(p: Problem, x: seq<int>, s: seq<seq<int>>)
    requires SortedByScore(p, s)
    ensures SortedByScore(p, InsertByScore(p, x, s))
  {
    if s != [] {
      HeadIsLeast(p, s);
      if ScoreKey(p, x) <= ScoreKey(p, s[0]) {
        ConsSorted(p, x, s);
      } else {
        InsertKeepsSorted(p, x, s[1..]);
        InsertLowerBound(p, x, s[1..], ScoreKey(p, s[0]));
        ConsSorted(p, s[0], InsertByScore(p, x, s[1..]));
      }
    }
  }

  /** Python's `sorted(…, key=…)`, as an insertion sort (stable, like Timsort). */
  function SortByScore(p: Problem, xs: seq<seq<int>>): (r: seq<seq<int>>)
    ensures |r| == |xs|
    ensures multiset(r) == multiset(xs)
  {
    if xs == [] then []
    else
      assert xs == [xs[0]] + xs[1..];
      InsertByScore(p, xs[0], SortByScore(p, xs[1..]))
  }

  lemma {:induction false} SortIsSorted(p: Problem, xs: seq<seq<int>>)
    ensures SortedByScore(p, SortByScore(p, xs))
  {
    if xs != [] {
      SortIsSorted(p, xs[1..]);
      InsertKeepsSorted(p, xs[0], SortByScore(p, xs[1..]));
    }
  }

  /** `get_best`: the `numToGet` best-scoring vectors, in ascending score order. */
  function GetBest(p: Problem, offspring: seq<seq<int>>, numToGet: nat): (best: seq<seq<int>>)
    ensures |best| == Min(numToGet, |offspring|)
    ensures multiset(best) <= multiset(offspring)
  {
    var sorted := SortByScore(p, offspring);
    var n := Min(numToGet, |offspring|);
    assert sorted == sorted[..n] + sorted[n..];
    sorted[..n]
  }

  /**
   * The vectors `get_best` returns are min(k, n) of the candidates, in
   * ascending score order, and none of the candidates left out scores
   * better than any of them.
   */
  lemma GetBestSelects(p: Problem, offspring: seq<seq<int>>, numToGet: nat)
    ensures var best := GetBest(p, offspring, numToGet);
      |best| == Min(numToGet, |offspring|) &&
      multiset(best) <= multiset(offspring) &&
      (forall i, j :: 0 <= i < j < |best| ==> ScoreKey(p, best[i]) <= ScoreKey(p, best[j])) &&
      (forall b, o :: b in best && o in multiset(offspring) - multiset(best) ==> ScoreKey(p, b) <= ScoreKey(p, o))
  {
    var sorted := SortByScore(p, offspring);
    SortIsSorted(p, offspring);
    var n := Min(numToGet, |offspring|);
    SortedSplit(p, sorted, n);
    assert sorted == sorted[..n] + sorted[n..];
    assert multiset(offspring) - multiset(sorted[..n]) == multiset(sorted[n..]);
  }

  /** In a sorted list, every element of a prefix keys no higher than every element after it. */
  lemma SortedSplit(p: Problem, s: seq<seq<int>>, n: nat)
    requires SortedByScore(p, s) && n <= |s|
    ensures forall i, j :: 0 <= i < j < n ==> ScoreKey(p, s[..n][i]) <= ScoreKey(p, s[..n][j])
    ensures forall b, o :: b in s[..n] && o in s[n..] ==> ScoreKey(p, b) <= ScoreKey(p, o)
  {
    forall b, o | b in s[..n] && o in s[n..] ensures ScoreKey(p, b) <= ScoreKey(p, o) {
      var i :| 0 <= i < n && s[..n][i] == b;
      var j :| 0 <= j < |s| - n && s[n..][j] == o;
      assert s[i] == b && s[n + j] == o;
    }
  }

  // ---------------------------------------------------------------------
  // The records a search prints
  // ---------------------------------------------------------------------

  /**
   * The values a "keep the best so far" loop reports, starting from
   * `start`: each value strictly below every value reported before it.
   */
  function Improvements(start: int, xs: seq<int>): seq<int>
  {
    if xs == [] then []
    else
      var before := Improvements(start, xs[..|xs| - 1]);
      var best := if before == [] then start else before[|before| - 1];
      if xs[|xs| - 1] < best then before + [xs[|xs| - 1]] else before
  }

  function Last(start: int, xs: seq<int>): int {
    if xs == [] then start else xs[|xs| - 1]
  }

  function MinOf(start: int, xs: seq<int>): (r: int)
    ensures r <= start && forall i :: 0 <= i < |xs| ==> r <= xs[i]
    ensures r == start || exists i :: 0 <= i < |xs| && r == xs[i]
  {
    if xs == [] then start else Min(MinOf(start, xs[..|xs| - 1]), xs[|xs| - 1])
  }

  ghost predicate Decreasing(r: seq<int>) {
    forall i, j :: 0 <= i < j < |r| ==> r[i] > r[j]
  }

  /** The reported values strictly decrease, and each is one of the observed values, below the start. */
  lemma {:induction false} ImprovementsDecrease(start: int, xs: seq<int>)
    ensures Decreasing(Improvements(start, xs))
    ensures forall x :: x in Improvements(start, xs) ==> x < start && x in xs
  {
    if xs != [] {
      var init := xs[..|xs| - 1];
      ImprovementsDecrease(start, init);
      var before := Improvements(start, init);
      assert forall x :: x in init ==> x in xs;
      var x := xs[|xs| - 1];
      var best := Last(start, before);
      if before != [] {
        var l := |before| - 1;
        assert before[l] in before;
        forall i | 0 <= i < l ensures before[i] > before[l] {
        }
      }
      if x < best {
        var r := before + [x];
        assert Improvements(start, xs) == r;
        forall i, j | 0 <= i < j < |r| ensures r[i] > r[j] {
          if j < |before| {
            assert r[i] == before[i] && r[j] == before[j];
          }
        }
        forall y | y in r ensures y < start && y in xs {
          if y != x {
            assert y in before;
          }
        }
      }
    }
  }

  /** The last value reported is the running minimum. */
  lemma {:induction false} ImprovementsLastIsMin(start: int, xs: seq<int>)
    ensures Last(start, Improvements(start, xs)) == MinOf(start, xs)
  {
    if xs != [] {
      ImprovementsLastIsMin(start, xs[..|xs| - 1]);
    }
  }

  // ---------------------------------------------------------------------
  // The genetic search (__main__ loop)
  // ---------------------------------------------------------------------

  /** Smallest score in a non-empty set of vectors (`min([...])`). */
  function MinScore(p: Problem, xs: seq<seq<int>>): (r: int)
    requires ScoredVectors(p, xs) && xs != []
    ensures r >= 0
    ensures forall o :: o in xs ==> r <= Score(p, o)
    ensures exists o :: o in xs && r == Score(p, o)
  {
    if |xs| == 1 then Score(p, xs[0])
    else
      assert ScoredVectors(p, xs[1..]) by {
        forall o | o in xs[1..] ensures |o| >= p.numAmbers { assert o in xs; }
      }
      assert xs == [xs[0]] + xs[1..];
      Min(Score(p, xs[0]), MinScore(p, xs[1..]))
  }

  ghost predicate Population(p: Problem, xs: seq<seq<int>>) {
    p.Valid() && p.numAmbers == NumAmberNames && |xs| >= 4 && AllOfLength(xs, NumAmberNames)
  }

  /**
   * The ten `breed` calls of one generation, in order: the ranks of the two
   * elite parents and the mutation rate; each call breeds two children.
   */
  const Matings: seq<(nat, nat, nat)> := [
    (0, 0, 3), (1, 1, 3), (2, 2, 3), (3, 3, 3),
    (0, 1, 6), (0, 2, 6), (0, 3, 6), (1, 2, 6), (1, 3, 6), (2, 3, 6)]

  lemma MatingsWellFormed()
    ensures |Matings| == 10
    ensures forall m :: 0 <= m < |Matings| ==> Matings[m].0 < 4 && Matings[m].1 < 4
  {
  }

  /**
   * The children of the first m `breed` calls of a generation bred from
   * the elites `best`, in order, and the first draw left unused: each call
   * breeds two children from its two parents, starting where the previous
   * call stopped.
   */
  function Brood(flexible: seq<seq<int>>, best: seq<seq<int>>, length: nat, rand: nat -> nat, pos: nat, m: nat)
    : (r: (seq<seq<int>>, nat))
    requires m <= |Matings| && |best| == 4 && 0 < length <= |flexible| && NonEmptyRanges(flexible)
    requires AllOfLength(best, length)
    ensures |r.0| == 2 * m && AllOfLength(r.0, length)
  {
    if m == 0 then ([], pos)
    else
      MatingsWellFormed();
      var (children, at) := Brood(flexible, best, length, rand, pos, m - 1);
      var (a, b, rate) := Matings[m - 1];
      var o := Offspring(flexible, best[a], best[b], 2, rate, length, rand, at);
      OffspringLengths(flexible, best[a], best[b], 2, rate, length, rand, at);
      AllOfLengthConcat(children, o, length);
      (children + o, ChildStart(at, 2, ChildDraws(length, rate)))
  }

  /** One generation: the twenty children of the ten `breed` calls, then the four parents. */
  method NextGeneration(flexible: seq<seq<int>>, best: seq<seq<int>>, length: nat, rand: nat -> nat, pos: nat)
    returns (next: seq<seq<int>>, nextPos: nat)
    requires |best| == 4 && 0 < length <= |flexible| && NonEmptyRanges(flexible)
    requires AllOfLength(best, length)
    ensures next == Brood(flexible, best, length, rand, pos, |Matings|).0 + best
    ensures nextPos == Brood(flexible, best, length, rand, pos, |Matings|).1
  {
    MatingsWellFormed();
    next := [];
    nextPos := pos;
    var m := 0;
    while m < |Matings|
      invariant 0 <= m <= |Matings|
      invariant next == Brood(flexible, best, length, rand, pos, m).0
      invariant nextPos == Brood(flexible, best, length, rand, pos, m).1
    {
      next, nextPos := BreedMating(flexible, best, length, rand, pos, m, next, nextPos);
      m := m + 1;
    }
    next := next + best;
  }

  /** The m-th `breed` call of a generation: its two children follow those of the calls before it. */
  method BreedMating(flexible: seq<seq<int>>, best: seq<seq<int>>, length: nat, rand: nat -> nat, pos: nat, m: nat,
                     children: seq<seq<int>>, at: nat)
    returns (next: seq<seq<int>>, nextPos: nat)
    requires m < |Matings| && |best| == 4 && 0 < length <= |flexible| && NonEmptyRanges(flexible)
    requires AllOfLength(best, length)
    requires children == Brood(flexible, best, length, rand, pos, m).0
    requires at == Brood(flexible, best, length, rand, pos, m).1
    ensures next == Brood(flexible, best, length, rand, pos, m + 1).0
    ensures nextPos == Brood(flexible, best, length, rand, pos, m + 1).1
  {
    MatingsWellFormed();
    var (a, b, rate) := Matings[m];
    var o;
    o, nextPos := Breed(flexible, best[a], best[b], 2, rate, length, rand, at);
    next := children + o;
  }

  /**
   * The population after one generation of the genetic search, and the
   * next unused draw: the children bred from the four best vectors of
   * `pop`, followed by those four.
   */
  function NextPopulation(p: Problem, pop: seq<seq<int>>, rand: nat -> nat, pos: nat): (r: (seq<seq<int>>, nat))
    requires Population(p, pop)
    ensures Population(p, r.0) && ScoredVectors(p, r.0)
    ensures |r.0| == 24 && r.0[20..] == GetBest(p, pop, 4)
  {
    MatingsWellFormed();
    BestOfPopulation(p, pop);
    TablesWellFormed();
    var best := GetBest(p, pop, 4);
    var (children, next) := Brood(FlexibleCharges, best, NumAmberNames, rand, pos, |Matings|);
    AllOfLengthConcat(children, best, NumAmberNames);
    PopulationScored(p, children + best);
    assert (children + best)[20..] == best;
    (children + best, next)
  }

  /** The four elite vectors of a population are four of its vectors and have its length. */
  lemma BestOfPopulation(p: Problem, xs: seq<seq<int>>)
    requires Population(p, xs)
    ensures |GetBest(p, xs, 4)| == 4 && AllOfLength(GetBest(p, xs, 4), NumAmberNames)
  {
    GetBestSelects(p, xs, 4);
    var best := GetBest(p, xs, 4);
    forall i | 0 <= i < |best| ensures |best[i]| == NumAmberNames {
      assert best[i] in multiset(xs);
      var j :| 0 <= j < |xs| && xs[j] == best[i];
    }
  }

  ghost predicate AllPositive(xs: seq<int>) {
    forall i :: 0 <= i < |xs| ==> xs[i] > 0
  }

  lemma PopulationScored(p: Problem, xs: seq<seq<int>>)
    requires Population(p, xs)
    ensures ScoredVectors(p, xs)
  {
    forall o | o in xs ensures |o| >= p.numAmbers {
      var i :| 0 <= i < |xs| && xs[i] == o;
    }
  }

  /** What observing one more value adds to the reports and to the running minimum. */
  lemma ImprovementsStep(start: int, xs: seq<int>, x: int)
    ensures var before := Improvements(start, xs);
      Improvements(start, xs + [x]) == (if x < Last(start, before) then before + [x] else before) &&
      MinOf(start, xs + [x]) == Min(MinOf(start, xs), x)
  {
    assert (xs + [x])[..|xs|] == xs;
  }

  /** The best score of a population (`min([...])` over it). */
  function GenerationScore(p: Problem, pop: seq<seq<int>>): (r: int)
    requires Population(p, pop)
    ensures r >= 0 && exists o :: o in pop && r == Score(p, o)
  {
    PopulationScored(p, pop);
    MinScore(p, pop)
  }

  /** A population of the genetic search with the first random draw its breeding starts from. */
  type Stage = (seq<seq<int>>, nat)

  /** `x`, then the `n` states `step` produces from it in turn. */
  ghost function Iterates<T>(step: T -> T, x: T, n: nat): (r: seq<T>)
    ensures |r| == n + 1 && r[0] == x
  {
    if n == 0 then [x]
    else
      var prev := Iterates(step, x, n - 1);
      prev + [step(prev[n - 1])]
  }

  /** Applying `step` to the last state extends the sequence by one. */
  lemma IteratesStep<T>(step: T -> T, x: T, n: nat, xs: seq<T>, next: T)
    requires xs == Iterates(step, x, n) && next == step(xs[n])
    ensures xs + [next] == Iterates(step, x, n + 1)
  {
  }

  /** Each state of the sequence is `step` applied to the one before it. */
  lemma {:induction false} IteratesLink<T>(step: T -> T, x: T, n: nat, i: nat)
    requires i < n
    ensures Iterates(step, x, n)[i + 1] == step(Iterates(step, x, n)[i])
  {
    var r, prev := Iterates(step, x, n), Iterates(step, x, n - 1);
    assert r[i] == prev[i];
    if i + 1 < n {
      IteratesLink(step, x, n - 1, i);
      assert r[i + 1] == prev[i + 1];
    }
  }

  /**
   * One generation of the genetic search as a step on (population, draw)
   * pairs: NextPopulation for a population the search can hold (others are
   * left unchanged, as the search never meets them).
   */
  ghost function Breeding(p: Problem, rand: nat -> nat): Stage -> Stage {
    (x: Stage) => if Population(p, x.0) then NextPopulation(p, x.0, rand, x.1) else x
  }

  /** `mins` holds the best score of each bred population of the run `runs`. */
  ghost predicate GenerationScores(p: Problem, runs: seq<(seq<seq<int>>, nat)>, mins: seq<int>) {
    && |runs| == |mins| + 1
    && (forall i :: 0 <= i < |runs| ==> Population(p, runs[i].0))
    && (forall i :: 0 <= i < |mins| ==> mins[i] == GenerationScore(p, runs[i + 1].0))
  }

  lemma GenerationScoresStep(p: Problem, runs: seq<Stage>, mins: seq<int>, next: Stage, score: int)
    requires GenerationScores(p, runs, mins)
    requires Population(p, next.0) && score == GenerationScore(p, next.0)
    ensures GenerationScores(p, runs + [next], mins + [score])
  {
    var runs', mins' := runs + [next], mins + [score];
    forall i | 0 <= i < |runs'| ensures Population(p, runs'[i].0) {
      if i < |runs| { assert runs'[i] == runs[i]; }
    }
    forall i | 0 <= i < |mins'| ensures mins'[i] == GenerationScore(p, runs'[i + 1].0) {
      if i < |mins| { assert runs'[i + 1] == runs[i + 1] && mins'[i] == mins[i]; }
    }
  }

  method Generation(p: Problem, currentSet: seq<seq<int>>, rand: nat -> nat, pos: nat)
    returns (nextSet: seq<seq<int>>, nextPos: nat, score: int)
    requires Population(p, currentSet)
    ensures (nextSet, nextPos) == NextPopulation(p, currentSet, rand, pos)
    ensures Population(p, nextSet) && score == GenerationScore(p, nextSet)
  {
    TablesWellFormed();
    var best := GetBest(p, currentSet, 4);
    BestOfPopulation(p, currentSet);
    nextSet, nextPos := NextGeneration(FlexibleCharges, best, NumAmberNames, rand, pos);
    assert (nextSet, nextPos) == NextPopulation(p, currentSet, rand, pos);
    score := MinScore(p, nextSet);
  }

  /** One generation of a run of the genetic search: the run grows by the population it breeds. */
  method SearchStep(p: Problem, rand: nat -> nat, initial: seq<seq<int>>, currentSet: seq<seq<int>>, pos: nat,
                    ghost runs: seq<Stage>, ghost mins: seq<int>)
    returns (nextSet: seq<seq<int>>, nextPos: nat, score: int)
    requires runs == Iterates<Stage>(Breeding(p, rand), (initial, 0), |mins|) && GenerationScores(p, runs, mins)
    requires runs[|mins|] == (currentSet, pos)
    ensures runs + [(nextSet, nextPos)] == Iterates<Stage>(Breeding(p, rand), (initial, 0), |mins| + 1)
    ensures GenerationScores(p, runs + [(nextSet, nextPos)], mins + [score])
  {
    nextSet, nextPos, score := Generation(p, currentSet, rand, pos);
    IteratesStep(Breeding(p, rand), (initial, 0), |mins|, runs, (nextSet, nextPos));
    GenerationScoresStep(p, runs, mins, (nextSet, nextPos), score);
  }

  /**
   * The genetic search: `steps` generations (fewer when a keyboard
   * interrupt ends it, modelled by a smaller `steps`). `stepMins` holds the
   * best score of each generation and `printed` the values reported;
   * `runs` are the populations in turn, each bred from the one before it
   * (Breeding), with the first random draw its breeding starts from.
   */
  method GeneticSearch(p: Problem, initial: seq<seq<int>>, steps: nat, rand: nat -> nat)
    returns (bestScore: int, printed: seq<int>, stepMins: seq<int>, ghost runs: seq<Stage>)
    requires Population(p, initial)
    ensures printed == Improvements(5000, stepMins)
    ensures bestScore == Last(5000, printed) == MinOf(5000, stepMins)
    ensures |stepMins| <= steps
    ensures |stepMins| < steps ==> bestScore == 0
    ensures forall i :: 0 <= i < |stepMins| ==> stepMins[i] >= 0
    ensures forall i :: 0 <= i < |stepMins| - 1 ==> stepMins[i] != 0
    ensures runs == Iterates<Stage>(Breeding(p, rand), (initial, 0), |stepMins|) && GenerationScores(p, runs, stepMins)
  {
    TablesWellFormed();
    var currentSet := initial;
    var pos := 0;
    bestScore := 5000;
    printed := [];
    stepMins := [];
    runs := [(initial, 0)];
    var step := 0;
    while step < steps
      invariant 0 <= step <= steps && |stepMins| == step
      invariant Population(p, currentSet)
      invariant printed == Improvements(5000, stepMins)
      invariant bestScore == Last(5000, printed) == MinOf(5000, stepMins) && bestScore > 0
      invariant AllPositive(stepMins)
      invariant runs == Iterates<Stage>(Breeding(p, rand), (initial, 0), step) && GenerationScores(p, runs, stepMins)
      invariant runs[step] == (currentSet, pos)
    {
      var currentScore;
      currentSet, pos, currentScore := SearchStep(p, rand, initial, currentSet, pos, runs, stepMins);
      ImprovementsStep(5000, stepMins, currentScore);
      ghost var before := stepMins;
      stepMins := stepMins + [currentScore];
      runs := runs + [(currentSet, pos)];
      assert stepMins[..|before|] == before;
      if currentScore < bestScore {
        bestScore := currentScore;
        printed := printed + [bestScore];
        if currentScore == 0 {
          return;
        }
      }
      step := step + 1;
    }
  }

  // ---------------------------------------------------------------------
  // The exhaustive search over it.product(...)
  // ---------------------------------------------------------------------

  /** Number of elements of the Cartesian product of the ranges (the `product` of the script). */
  function ProductSize(ranges: seq<seq<int>>): nat
  {
    if ranges == [] then 1 else |ranges[0]| * ProductSize(ranges[1..])
  }

  /** `v` is an element of the product: one value of each range, in order. */
  ghost predicate InProduct(ranges: seq<seq<int>>, v: seq<int>) {
    |v| == |ranges| && forall i :: 0 <= i < |v| ==> v[i] in ranges[i]
  }

  /** Each tuple of `ts` with `x` put in front. */
  function Prefixed(x: int, ts: seq<seq<int>>): (r: seq<seq<int>>)
    ensures |r| == |ts|
  {
    seq(|ts|, i requires 0 <= i < |ts| => [x] + ts[i])
  }

  /** The tuples x + t for x in xs (varying slowest) and t in ts (varying fastest). */
  function Extend(xs: seq<int>, ts: seq<seq<int>>): seq<seq<int>>
  {
    if xs == [] then [] else Prefixed(xs[0], ts) + Extend(xs[1..], ts)
  }

  /** `itertools.product(*ranges)`, in the order it yields the tuples. */
  function Product(ranges: seq<seq<int>>): seq<seq<int>>
  {
    if ranges == [] then [[]] else Extend(ranges[0], Product(ranges[1..]))
  }

  lemma {:induction false} ExtendSize(xs: seq<int>, ts: seq<seq<int>>)
    ensures |Extend(xs, ts)| == |xs| * |ts|
  {
    if xs != [] {
      ExtendSize(xs[1..], ts);
      MulMonoIf(|xs| - 1, |xs|, |ts|);
    }
  }

  /** The product yields exactly ProductSize tuples. */
  lemma {:induction false} ProductCount(ranges: seq<seq<int>>)
    ensures |Product(ranges)| == ProductSize(ranges)
  {
    if ranges != [] {
      ProductCount(ranges[1..]);
      ExtendSize(ranges[0], Product(ranges[1..]));
    }
  }

  lemma PrefixedMembers(x: int, ts: seq<seq<int>>, v: seq<int>)
    ensures v in Prefixed(x, ts) <==> |v| > 0 && v[0] == x && v[1..] in ts
  {
    var r := Prefixed(x, ts);
    if v in r {
      var i :| 0 <= i < |r| && r[i] == v;
      assert v[1..] == ts[i];
    }
    if |v| > 0 && v[0] == x && v[1..] in ts {
      var i :| 0 <= i < |ts| && ts[i] == v[1..];
      assert r[i] == v;
    }
  }

  lemma {:induction false} ExtendMembers(xs: seq<int>, ts: seq<seq<int>>, v: seq<int>)
    ensures v in Extend(xs, ts) <==> |v| > 0 && v[0] in xs && v[1..] in ts
  {
    if xs != [] {
      ExtendMembers(xs[1..], ts, v);
      PrefixedMembers(xs[0], ts, v);
      assert xs == [xs[0]] + xs[1..];
    }
  }

  /** The product yields exactly the elements of the Cartesian product. */
  lemma {:induction false} ProductMembers(ranges: seq<seq<int>>, v: seq<int>)
    ensures v in Product(ranges) <==> InProduct(ranges, v)
  {
    if ranges == [] {
      assert v in Product(ranges) <==> v == [];
    } else {
      ExtendMembers(ranges[0], Product(ranges[1..]), v);
      if |v| > 0 {
        ProductMembers(ranges[1..], v[1..]);
        if InProduct(ranges, v) {
          forall i | 0 <= i < |v[1..]| ensures v[1..][i] in ranges[1..][i] {
            assert v[1..][i] == v[i + 1];
          }
        }
        if InProduct(ranges[1..], v[1..]) && v[0] in ranges[0] {
          forall i | 0 <= i < |v| ensures v[i] in ranges[i] {
            if i > 0 {
              assert v[i] == v[1..][i - 1];
            }
          }
        }
      }
    }
  }

  /** Every yielded tuple has one value per range. */
  lemma ProductLengths(ranges: seq<seq<int>>)
    ensures AllOfLength(Product(ranges), |ranges|)
  {
    forall i | 0 <= i < |Product(ranges)| ensures |Product(ranges)[i]| == |ranges| {
      ProductMembers(ranges, Product(ranges)[i]);
    }
  }

  /** A range lists each of its values once. */
  ghost predicate DistinctValues(xs: seq<int>) {
    forall a, b :: 0 <= a < b < |xs| ==> xs[a] != xs[b]
  }

  /** Each range lists each of its values once. */
  ghost predicate DistinctRanges(ranges: seq<seq<int>>) {
    forall i :: 0 <= i < |ranges| ==> DistinctValues(ranges[i])
  }

  ghost predicate NoDuplicates(s: seq<seq<int>>) {
    forall i, j :: 0 <= i < j < |s| ==> s[i] != s[j]
  }

  lemma ConcatNoDuplicates(a: seq<seq<int>>, b: seq<seq<int>>)
    requires NoDuplicates(a) && NoDuplicates(b)
    requires forall x :: x in a ==> x !in b
    ensures NoDuplicates(a + b)
  {
    var c := a + b;
    forall i, j | 0 <= i < j < |c| ensures c[i] != c[j] {
      if j >= |a| {
        assert c[j] == b[j - |a|];
        if i < |a| {
          assert c[i] == a[i] && c[i] in a && c[j] in b;
        } else {
          assert c[i] == b[i - |a|];
        }
      }
    }
  }

  lemma PrefixedNoDuplicates(x: int, ts: seq<seq<int>>)
    requires NoDuplicates(ts)
    ensures NoDuplicates(Prefixed(x, ts))
  {
    var r := Prefixed(x, ts);
    forall i, j | 0 <= i < j < |r| ensures r[i] != r[j] {
      assert r[i][1..] == ts[i] && r[j][1..] == ts[j];
    }
  }

  lemma {:induction false} ExtendNoDuplicates(xs: seq<int>, ts: seq<seq<int>>)
    requires DistinctValues(xs) && NoDuplicates(ts)
    ensures NoDuplicates(Extend(xs, ts))
  {
    if xs != [] {
      var tail := xs[1..];
      forall a, b | 0 <= a < b < |tail| ensures tail[a] != tail[b] {
        assert tail[a] == xs[a + 1] && tail[b] == xs[b + 1];
      }
      ExtendNoDuplicates(tail, ts);
      PrefixedNoDuplicates(xs[0], ts);
      assert forall a :: 0 <= a < |tail| ==> tail[a] == xs[a + 1] != xs[0];
      forall v | v in Prefixed(xs[0], ts) ensures v !in Extend(tail, ts) {
        PrefixedMembers(xs[0], ts, v);
        ExtendMembers(tail, ts, v);
      }
      ConcatNoDuplicates(Prefixed(xs[0], ts), Extend(tail, ts));
    }
  }

  /** With ranges that list each value once, no tuple is yielded twice. */
  lemma {:induction false} ProductNoDuplicates(ranges: seq<seq<int>>)
    requires DistinctRanges(ranges)
    ensures NoDuplicates(Product(ranges))
  {
    if ranges != [] {
      assert DistinctRanges(ranges[1..]) by {
        forall i | 0 <= i < |ranges[1..]| ensures DistinctValues(ranges[1..][i]) {
          assert ranges[1..][i] == ranges[i + 1];
        }
      }
      ProductNoDuplicates(ranges[1..]);
      ExtendNoDuplicates(ranges[0], Product(ranges[1..]));
    }
  }

  /** The errors of the tuples, in the order they are visited. */
  function Errors(p: Problem, vs: seq<seq<int>>): (r: seq<int>)
    ensures |r| == |vs|
  {
    if vs == [] then [] else Errors(p, vs[..|vs| - 1]) + [ScoreKey(p, vs[|vs| - 1])]
  }

  lemma {:induction false} ErrorsAt(p: Problem, vs: seq<seq<int>>, k: nat)
    requires k < |vs|
    ensures Errors(p, vs)[k] == ScoreKey(p, vs[k])
  {
    if k < |vs| - 1 {
      ErrorsAt(p, vs[..|vs| - 1], k);
    }
  }

  /** The last visited tuple whose error is below 7, with its error: what `solutions.txt` ends up holding. */
  function LastSolution(p: Problem, vs: seq<seq<int>>): Option<(int, seq<int>)>
  {
    if vs == [] then None
    else
      var e := ScoreKey(p, vs[|vs| - 1]);
      if e < 7 then Some((e, vs[|vs| - 1])) else LastSolution(p, vs[..|vs| - 1])
  }

  /**
   * The file is written exactly when some tuple has error below 7; it then
   * holds a visited tuple with its error, and no tuple visited after that
   * one has error below 7.
   */
  lemma {:induction false} LastSolutionSpec(p: Problem, vs: seq<seq<int>>)
    ensures var r := LastSolution(p, vs);
      (r.None? <==> forall k :: 0 <= k < |vs| ==> ScoreKey(p, vs[k]) >= 7) &&
      (r.Some? ==> exists k :: (0 <= k < |vs| && r.value == (ScoreKey(p, vs[k]), vs[k]) && r.value.0 < 7 &&
                                forall j :: k < j < |vs| ==> ScoreKey(p, vs[j]) >= 7))
  {
    if vs != [] {
      var init := vs[..|vs| - 1];
      LastSolutionSpec(p, init);
      assert forall k :: 0 <= k < |init| ==> init[k] == vs[k];
      var r := LastSolution(p, vs);
      if ScoreKey(p, vs[|vs| - 1]) >= 7 && r.Some? {
        var k :| 0 <= k < |init| && r.value == (ScoreKey(p, init[k]), init[k]) && r.value.0 < 7 &&
                 forall j :: k < j < |init| ==> ScoreKey(p, init[j]) >= 7;
        assert forall j :: k < j < |vs| ==> ScoreKey(p, vs[j]) >= 7;
      }
    }
  }

  /**
   * The exhaustive loop: visits the product in order, counting from -1,
   * reporting each new minimum below 40, and overwriting the solutions file
   * whenever the error is below 7.
   */
  method ExhaustiveSearch(p: Problem, ranges: seq<seq<int>>)
    returns (count: int, minError: int, printed: seq<int>, solution: Option<(int, seq<int>)>)
    requires p.Valid() && |ranges| == p.numAmbers
    ensures count == ProductSize(ranges) - 1
    ensures printed == Improvements(40, Errors(p, Product(ranges)))
    ensures minError == Last(40, printed) <= 40
    ensures forall v :: InProduct(ranges, v) ==> minError <= Score(p, v)
    ensures solution == LastSolution(p, Product(ranges))
  {
    count := -1;
    minError := 40;
    printed := [];
    solution := None;
    var all := Product(ranges);
    ProductLengths(ranges);
    var k := 0;
    while k < |all|
      invariant 0 <= k <= |all| && count == k - 1
      invariant printed == Improvements(40, Errors(p, all[..k]))
      invariant minError == Last(40, printed)
      invariant solution == LastSolution(p, all[..k])
    {
      var v := all[k];
      count := count + 1;
      var error := CombinationScore(v, p.targets, p.counts, p.numAmbers, |p.targets|);
      VisitStep(p, all, k, 40);
      if error < minError {
        minError := error;
        printed := printed + [minError];
      }
      if error < 7 {
        solution := Some((error, v));
      }
      k := k + 1;
    }
    assert all[..k] == all;
    ProductCount(ranges);
    MinBelowAll(p, ranges, printed, minError);
  }

  /** What visiting tuple k adds to the error list, the reports and the solutions file. */
  lemma VisitStep(p: Problem, vs: seq<seq<int>>, k: nat, start: int)
    requires k < |vs|
    ensures var e := ScoreKey(p, vs[k]);
      var before := Improvements(start, Errors(p, vs[..k]));
      Errors(p, vs[..k + 1]) == Errors(p, vs[..k]) + [e] &&
      Improvements(start, Errors(p, vs[..k + 1])) == (if e < Last(start, before) then before + [e] else before) &&
      LastSolution(p, vs[..k + 1]) == (if e < 7 then Some((e, vs[k])) else LastSolution(p, vs[..k]))
  {
    assert vs[..k + 1][..k] == vs[..k];
    var es := Errors(p, vs[..k + 1]);
    assert es[..k] == Errors(p, vs[..k]);
  }

  lemma MinBelowAll(p: Problem, ranges: seq<seq<int>>, printed: seq<int>, minError: int)
    requires p.Valid() && |ranges| == p.numAmbers
    requires printed == Improvements(40, Errors(p, Product(ranges)))
    requires minError == Last(40, printed)
    ensures minError <= 40
    ensures forall v :: InProduct(ranges, v) ==> minError <= Score(p, v)
  {
    var all := Product(ranges);
    ImprovementsLastIsMin(40, Errors(p, all));
    forall v | InProduct(ranges, v) ensures minError <= Score(p, v) {
      ProductMembers(ranges, v);
      ErrorOfMember(p, all, v, 40);
    }
  }

  /** The running minimum is at most the error of every visited tuple. */
  lemma ErrorOfMember(p: Problem, vs: seq<seq<int>>, v: seq<int>, start: int)
    requires v in vs
    ensures MinOf(start, Errors(p, vs)) <= ScoreKey(p, v)
  {
    var k :| 0 <= k < |vs| && vs[k] == v;
    ErrorsAt(p, vs, k);
  }
}
