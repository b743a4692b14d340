/**
 * The bond-count charge predictor of the amino-acid template checker
 * (Assets/Resources/Data/AminoAcids/validate_bonds.py).
 *
 * Each atom contributes a charge that depends on its AMBER code and on how
 * many neighbours it has; aromatic codes add to a parity count. The script
 * works with Python floats whose only fractions are halves, so the model
 * counts in half units: every charge below is twice the script's value.
 */
module ValidateBonds {
  import opened Wrappers

  /** One atom of a template: AMBER code, PDB name and neighbour count. */
  datatype BondAtom = BondAtom(amber: string, pdb: string, numNeighbours: nat)

  /** The two look-ups the script does not guard: both raise KeyError. */
  datatype BondError =
    | NoChargeForNeighbours(amber: string, numNeighbours: nat)
    | NoElectronCount(amber: string)

  /** A charge table: AMBER code -> neighbour count -> charge (half units). */
  type ChargeTable = map<string, map<nat, int>>

  /** `charge_dict`, in half units: code -> neighbour count -> charge. */
  const ChargeHalves: ChargeTable := map[
    "N" := map[2 := -2, 3 := 0, 4 := 2],
    "NA" := map[2 := -2, 3 := 0],
    "NB" := map[2 := 0, 3 := 2],
    "NC" := map[2 := 0, 3 := 2],
    "N2" := map[2 := -2, 3 := 0, 4 := 2],
    "N3" := map[3 := 0, 4 := 2],
    "O" := map[1 := 0, 2 := 2],
    "OH" := map[1 := -2, 2 := 0],
    "O2" := map[1 := -1, 2 := 1],
    "SH" := map[1 := -2, 2 := 0]]

  /** `electrons`: electron count of the element behind each code. */
  const Electrons: map<string, int> := map[
    "C" := 6, "CA" := 6, "CB" := 6, "CC" := 6, "CD" := 6, "CK" := 6, "CN" := 6,
    "CR" := 6, "CT" := 6, "CV" := 6, "CW" := 6, "C*" := 6,
    "H" := 1, "H1" := 1, "H2" := 1, "H3" := 1, "H4" := 1, "H5" := 1, "HP" := 1,
    "HA" := 1, "HC" := 1, "HO" := 1, "HS" := 1,
    "N" := 7, "N2" := 7, "N3" := 7, "NA" := 7, "NB" := 7, "N*" := 7,
    "O" := 8, "O2" := 8, "OH" := 8, "S" := 16, "SH" := 16]

  /** `aromatics`, in half units. */
  const AromaticHalves: map<string, nat> := map[
    "C" := 2, "CA" := 2, "CB" := 2, "CC" := 2, "CD" := 2, "CK" := 2, "CN" := 2,
    "CR" := 2, "CV" := 2, "CW" := 2, "C*" := 2, "NB" := 2, "O2" := 1, "O" := 2]

  /** The backbone O, N and C atoms, which the predictor skips. */
  predicate IsBackbone(a: BondAtom) {
    (a.pdb == " O  " && a.amber == "O") ||
    (a.pdb == " N  " && a.amber == "N") ||
    (a.pdb == " C  " && a.amber == "C")
  }

  /** What one atom adds to the predicted charge (half units). */
  function Contribution(table: ChargeTable, a: BondAtom): Result<int, BondError>
  {
    if IsBackbone(a) || a.amber !in table then Ok(0)
    else if a.numNeighbours !in table[a.amber] then Err(NoChargeForNeighbours(a.amber, a.numNeighbours))
    else Ok(table[a.amber][a.numNeighbours])
  }

  function Aromatic(weights: map<string, nat>, a: BondAtom): nat {
    if a.amber in weights then weights[a.amber] else 0
  }

  /** The aromatic count of a list of atoms (half units). */
  function AromaticSum(weights: map<string, nat>, atoms: seq<BondAtom>): nat
  {
    if atoms == [] then 0 else AromaticSum(weights, atoms[..|atoms| - 1]) + Aromatic(weights, atoms[|atoms| - 1])
  }

  /** Adds one more contribution to a running sum; the first error is kept. */
  function Combine(sum: Result<int, BondError>, next: Result<int, BondError>): Result<int, BondError>
  {
    if sum.Err? then sum else if next.Err? then Err(next.error) else Ok(sum.value + next.value)
  }

  /** Sum of a list of contributions, or the first error among them. */
  function SumOf(rs: seq<Result<int, BondError>>): Result<int, BondError>
  {
    if rs == [] then Ok(0) else Combine(SumOf(rs[..|rs| - 1]), rs[|rs| - 1])
  }

  function Contributions(table: ChargeTable, atoms: seq<BondAtom>): (rs: seq<Result<int, BondError>>)
    ensures |rs| == |atoms| && forall i :: 0 <= i < |atoms| ==> rs[i] == Contribution(table, atoms[i])
  {
    seq(|atoms|, i requires 0 <= i < |atoms| => Contribution(table, atoms[i]))
  }

  /** Sum of the contributions of the atoms, or the error of the first atom whose look-up fails. */
  function ContributionSum(table: ChargeTable, atoms: seq<BondAtom>): (r: Result<int, BondError>)
    ensures atoms == [] ==> r == Ok(0)
    ensures r.Err? ==> exists i :: (0 <= i < |atoms| && Contribution(table, atoms[i]) == r
                                    && forall j :: 0 <= j < i ==> Contribution(table, atoms[j]).Ok?)
  {
    var rs := Contributions(table, atoms);
    SumOfFirstError(rs);
    SumOf(rs)
  }

  /** A failed sum is the first failed term. */
  lemma {:induction false} SumOfFirstError(rs: seq<Result<int, BondError>>)
    ensures SumOf(rs).Err? ==> exists i :: 0 <= i < |rs| && rs[i] == SumOf(rs) && forall j :: 0 <= j < i ==> rs[j].Ok?
  {
    if rs != [] {
      var init := rs[..|rs| - 1];
      SumOfFirstError(init);
      if SumOf(init).Err? {
        var i :| 0 <= i < |init| && init[i] == SumOf(init) && forall j :: 0 <= j < i ==> init[j].Ok?;
        assert rs[i] == init[i];
        assert forall j :: 0 <= j < i ==> rs[j] == init[j];
      } else if rs[|rs| - 1].Err? {
        SumOfOk(init);
        assert forall j :: 0 <= j < |init| ==> init[j] in init;
      }
    }
  }

  /**
   * `AminoAcid.predict_charge`: returns the predicted charge and the
   * aromatic count (both in half units). The predicted charge adds the
   * aromatic count modulo 2 (4 half units) to the contributions.
   */
  method PredictCharge(table: ChargeTable, weights: map<string, nat>, atoms: seq<BondAtom>) returns (r: Result<(int, nat), BondError>)
    ensures r.Ok? <==> ContributionSum(table, atoms).Ok?
    ensures r.Ok? ==> r.value == (ContributionSum(table, atoms).value + AromaticSum(weights, atoms) % 4, AromaticSum(weights, atoms))
    ensures r.Err? ==> r.error == ContributionSum(table, atoms).error
  {
    var predicted := 0;
    var aromaticCount := 0;
    var i := 0;
    while i < |atoms|
      invariant 0 <= i <= |atoms|
      invariant SumOf(Contributions(table, atoms)[..i]) == Ok(predicted)
      invariant aromaticCount == AromaticSum(weights, atoms[..i])
    {
      var atom := atoms[i];
      SumStep(table, weights, atoms, i);
      aromaticCount := aromaticCount + Aromatic(weights, atom);
      var charge := AtomCharge(table, atom);
      if charge.Err? {
        FirstErrorStays(Contributions(table, atoms), i + 1);
        return Err(charge.error);
      }
      predicted := predicted + charge.value;
      i := i + 1;
    }
    assert atoms[..i] == atoms;
    assert Contributions(table, atoms)[..i] == Contributions(table, atoms);
    r := Ok((predicted + aromaticCount % 4, aromaticCount));
  }

  /**
   * The body of the loop for one atom: backbone atoms and codes outside
   * `charge_dict` are skipped, otherwise the charge for the atom's
   * neighbour count is looked up, which fails when there is none.
   */
  method AtomCharge(table: ChargeTable, atom: BondAtom) returns (charge: Result<int, BondError>)
    ensures charge == Contribution(table, atom)
  {
    if IsBackbone(atom) || atom.amber !in table {
      return Ok(0);
    }
    var neighbourCharges := table[atom.amber];
    if atom.numNeighbours !in neighbourCharges {
      return Err(NoChargeForNeighbours(atom.amber, atom.numNeighbours));
    }
    charge := Ok(neighbourCharges[atom.numNeighbours]);
  }

  /** One more atom of the loop: its contribution and its aromatic weight join the sums. */
  lemma SumStep(table: ChargeTable, weights: map<string, nat>, atoms: seq<BondAtom>, i: nat)
    requires i < |atoms|
    ensures SumOf(Contributions(table, atoms)[..i + 1]) == Combine(SumOf(Contributions(table, atoms)[..i]), Contribution(table, atoms[i]))
    ensures AromaticSum(weights, atoms[..i + 1]) == AromaticSum(weights, atoms[..i]) + Aromatic(weights, atoms[i])
  {
    assert Contributions(table, atoms)[..i + 1][..i] == Contributions(table, atoms)[..i];
    assert atoms[..i + 1][..i] == atoms[..i];
  }

  /** Once a prefix fails, the whole list fails with the same error. */
  lemma {:induction false} FirstErrorStays(rs: seq<Result<int, BondError>>, n: nat)
    requires n <= |rs| && SumOf(rs[..n]).Err?
    ensures SumOf(rs) == SumOf(rs[..n])
    decreases |rs|
  {
    if n < |rs| {
      var init := rs[..|rs| - 1];
      assert init[..n] == rs[..n];
      FirstErrorStays(init, n);
    } else {
      assert rs[..n] == rs;
    }
  }

  /** A sum succeeds exactly when every contribution in it succeeds. */
  lemma {:induction false} SumOfOk(rs: seq<Result<int, BondError>>)
    ensures SumOf(rs).Ok? <==> forall r :: r in rs ==> r.Ok?
  {
    if rs != [] {
      var init := rs[..|rs| - 1];
      SumOfOk(init);
      assert rs == init + [rs[|rs| - 1]];
    }
  }

  /** The prediction succeeds exactly when every atom's look-up succeeds. */
  lemma ContributionSumOk(table: ChargeTable, atoms: seq<BondAtom>)
    ensures ContributionSum(table, atoms).Ok? <==> forall i :: 0 <= i < |atoms| ==> Contribution(table, atoms[i]).Ok?
  {
    var rs := Contributions(table, atoms);
    SumOfOk(rs);
    assert forall r :: r in rs ==> exists i :: 0 <= i < |atoms| && r == Contribution(table, atoms[i]);
  }

  /** A zero contribution can be dropped from anywhere in a sum. */
  lemma {:induction false} ZeroAddsNothing(xs: seq<Result<int, BondError>>, ys: seq<Result<int, BondError>>)
    ensures SumOf(xs + [Ok(0)] + ys) == SumOf(xs + ys)
    decreases |ys|
  {
    if ys == [] {
      assert (xs + [Ok(0)] + ys)[..|xs|] == xs;
      assert xs + ys == xs;
    } else {
      var init := ys[..|ys| - 1];
      ZeroAddsNothing(xs, init);
      assert (xs + [Ok(0)] + ys)[..|xs| + 1 + |init|] == xs + [Ok(0)] + init;
      assert (xs + ys)[..|xs| + |init|] == xs + init;
    }
  }

  /**
   * An atom that contributes 0 — a backbone O, N or C, or a code outside
   * `charge_dict` — can be dropped from anywhere in the list without
   * changing the sum of contributions.
   */
  lemma NeutralAtomAddsNothing(table: ChargeTable, xs: seq<BondAtom>, a: BondAtom, ys: seq<BondAtom>)
    requires IsBackbone(a) || a.amber !in table
    ensures ContributionSum(table, xs + [a] + ys) == ContributionSum(table, xs + ys)
  {
    assert Contribution(table, a) == Ok(0);
    assert Contributions(table, xs + [a] + ys) == Contributions(table, xs) + [Ok(0)] + Contributions(table, ys);
    assert Contributions(table, xs + ys) == Contributions(table, xs) + Contributions(table, ys);
    ZeroAddsNothing(Contributions(table, xs), Contributions(table, ys));
  }

  /** Every charge of the table is a whole number, except those listed under `code`. */
  ghost predicate WholeExceptAt(table: ChargeTable, code: string) {
    forall k, n :: k in table && n in table[k] && k != code ==> table[k][n] % 2 == 0
  }

  /** Every aromatic weight is a whole number, except that of `code`. */
  ghost predicate WholeWeightsExceptAt(weights: map<string, nat>, code: string) {
    forall k :: k in weights && k != code ==> weights[k] % 2 == 0
  }

  /** Among the script's aromatic weights only that of O2 is a half. */
  lemma AromaticHalvesOnlyAtO2()
    ensures WholeWeightsExceptAt(AromaticHalves, "O2") && AromaticHalves["O2"] % 2 == 1
  {
  }

  /** A sum of whole contributions is whole. */
  lemma {:induction false} SumOfWhole(rs: seq<Result<int, BondError>>)
    requires forall i :: 0 <= i < |rs| && rs[i].Ok? ==> rs[i].value % 2 == 0
    requires SumOf(rs).Ok?
    ensures SumOf(rs).value % 2 == 0
  {
    if rs != [] {
      var n := |rs| - 1;
      SumOfWhole(rs[..n]);
    }
  }

  /**
   * A template without the code that carries half charges gets a whole
   * sum of contributions.
   */
  lemma WholeWithoutCode(table: ChargeTable, code: string, atoms: seq<BondAtom>)
    requires WholeExceptAt(table, code)
    requires forall i :: 0 <= i < |atoms| ==> atoms[i].amber != code
    requires ContributionSum(table, atoms).Ok?
    ensures ContributionSum(table, atoms).value % 2 == 0
  {
    SumOfWhole(Contributions(table, atoms));
  }

  /** Likewise its aromatic count is whole. */
  lemma {:induction false} WholeAromaticWithoutCode(weights: map<string, nat>, code: string, atoms: seq<BondAtom>)
    requires WholeWeightsExceptAt(weights, code)
    requires forall i :: 0 <= i < |atoms| ==> atoms[i].amber != code
    ensures AromaticSum(weights, atoms) % 2 == 0
  {
    if atoms != [] {
      var n := |atoms| - 1;
      WholeAromaticWithoutCode(weights, code, atoms[..n]);
    }
  }

  /** Sum of the electron counts, or an error for the first code without one. */
  function ElectronSum(electrons: map<string, int>, atoms: seq<BondAtom>): Result<int, BondError>
  {
    if atoms == [] then Ok(0)
    else
      var init := ElectronSum(electrons, atoms[..|atoms| - 1]);
      var amber := atoms[|atoms| - 1].amber;
      if init.Err? then init
      else if amber !in electrons then Err(NoElectronCount(amber))
      else Ok(init.value + electrons[amber])
  }

  /**
   * The multiplicity rule of `process_amino_acid`: 1 when the electron
   * count plus the predicted charge is even (Python's float `% 2 == 0`),
   * else 2. With the charge in half units that is "2 * electrons + charge
   * is a multiple of 4".
   */
  function MultiplicityOf(electronCount: int, predictedHalves: int): (m: nat)
    ensures m == 1 || m == 2
    ensures predictedHalves % 2 == 1 ==> m == 2
  {
    if (2 * electronCount + predictedHalves) % 4 == 0 then 1 else 2
  }

  /** The multiplicity of a template, or the error of its first code without an electron count. */
  function Multiplicity(electrons: map<string, int>, atoms: seq<BondAtom>, predictedHalves: int): (r: Result<nat, BondError>)
    ensures r.Err? <==> exists i :: 0 <= i < |atoms| && atoms[i].amber !in electrons
    ensures r.Ok? ==> r.value == 1 || r.value == 2
    ensures r.Ok? && predictedHalves % 2 == 1 ==> r.value == 2
  {
    ElectronSumOk(electrons, atoms);
    var count := ElectronSum(electrons, atoms);
    if count.Err? then Err(count.error) else Ok(MultiplicityOf(count.value, predictedHalves))
  }

  /** For a whole predicted charge c, the multiplicity is 1 exactly when electrons + c is even, else 2. */
  lemma MultiplicityWholeCharge(electronCount: int, c: int)
    ensures MultiplicityOf(electronCount, 2 * c) == 1 <==> (electronCount + c) % 2 == 0
    ensures MultiplicityOf(electronCount, 2 * c) == 2 <==> (electronCount + c) % 2 == 1
  {
    var k := (electronCount + c) / 2;
    assert 2 * electronCount + 2 * c == 4 * k + 2 * ((electronCount + c) % 2);
  }

  /** A predicted charge ending in .5 never makes the sum even, so the multiplicity is 2. */
  lemma MultiplicityHalfCharge(electronCount: int, predictedHalves: int)
    requires predictedHalves % 2 == 1
    ensures MultiplicityOf(electronCount, predictedHalves) == 2
  {
    var k := (2 * electronCount + predictedHalves) / 4;
    assert 2 * electronCount + predictedHalves == 4 * k + (2 * electronCount + predictedHalves) % 4;
  }

  /** The multiplicity fails exactly when some atom's code has no electron count. */
  lemma {:induction false} ElectronSumOk(electrons: map<string, int>, atoms: seq<BondAtom>)
    ensures ElectronSum(electrons, atoms).Ok? <==> forall i :: 0 <= i < |atoms| ==> atoms[i].amber in electrons
  {
    if atoms != [] {
      var n := |atoms| - 1;
      ElectronSumOk(electrons, atoms[..n]);
      assert forall i :: 0 <= i < n ==> atoms[..n][i] == atoms[i];
    }
  }
}
