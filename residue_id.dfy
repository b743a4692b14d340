/** The identifier of a residue: a chain letter and a residue number. Its
    text form is the chain followed by the number ("A12"); it is ordered by
    chain, then by number. */
module ResidueIDs {
  import opened Wrappers
  import opened Text

  datatype ResidueID = ResidueID(chainID: string, residueNumber: int)

  /** The placeholder identifier. */
  const Empty := ResidueID("", 0)

  predicate IsEmpty(r: ResidueID) {
    r.chainID == [] && r.residueNumber == 0
  }

  /** The text form: the chain followed by the decimal number, which
      reads back as the number. */
  function ToString(r: ResidueID): (s: string)
    ensures |r.chainID| < |s| && s[..|r.chainID|] == r.chainID
    ensures Int32Min <= r.residueNumber <= Int32Max ==>
      TryParseInt(s[|r.chainID|..]) == Some(r.residueNumber)
  {
    var number := IntToString(r.residueNumber);
    var s := r.chainID + number;
    assert s[|r.chainID|..] == number;
    if Int32Min <= r.residueNumber <= Int32Max then
      TryParseIntToString(r.residueNumber);
      s
    else s
  }

  /** The characters of s that are digits, in order. */
  function DigitsOf(s: string): (r: string)
    ensures AllDigits(r) && |r| <= |s|
  {
    if s == [] then [] else if IsDigit(s[0]) then [s[0]] + DigitsOf(s[1..]) else DigitsOf(s[1..])
  }

  /** The characters of s that are not digits, in order. */
  function NonDigitsOf(s: string): (r: string)
    ensures forall i :: 0 <= i < |r| ==> !IsDigit(r[i])
    ensures |r| <= |s|
  {
    if s == [] then [] else if IsDigit(s[0]) then NonDigitsOf(s[1..]) else [s[0]] + NonDigitsOf(s[1..])
  }

  /** Every character goes to exactly one side of the split. */
  lemma {:induction false} SplitCountsAll(s: string)
    ensures |DigitsOf(s)| + |NonDigitsOf(s)| == |s|
  {
    if s != [] {
      SplitCountsAll(s[1..]);
    }
  }

  lemma {:induction false} SplitAppend(a: string, b: string)
    ensures DigitsOf(a + b) == DigitsOf(a) + DigitsOf(b)
    ensures NonDigitsOf(a + b) == NonDigitsOf(a) + NonDigitsOf(b)
  {
    if a != [] {
      assert (a + b)[1..] == a[1..] + b;
      SplitAppend(a[1..], b);
    } else {
      assert a + b == b;
    }
  }

  lemma {:induction false} SplitOfDigits(s: string)
    requires AllDigits(s)
    ensures DigitsOf(s) == s && NonDigitsOf(s) == []
  {
    if s != [] {
      SplitOfDigits(s[1..]);
    }
  }

  lemma {:induction false} SplitOfNonDigits(s: string)
    requires forall i :: 0 <= i < |s| ==> !IsDigit(s[i])
    ensures DigitsOf(s) == [] && NonDigitsOf(s) == s
  {
    if s != [] {
      SplitOfNonDigits(s[1..]);
    }
  }

  /** Reads an identifier: every digit goes to the number, every other
      character to the chain; a string without digits, or a number past the
      32-bit range, is rejected by the number parser. */
  function FromString(s: string): (r: Result<ResidueID, ParseError>)
    ensures r.Ok? <==> DigitsOf(s) != [] && DigitsValue(DigitsOf(s)) <= Int32Max
    ensures r.Ok? ==> r.value.chainID == NonDigitsOf(s) && r.value.residueNumber == DigitsValue(DigitsOf(s))
    ensures DigitsOf(s) == [] ==> r == Err(NotANumber)
  {
    match ParseDigits(DigitsOf(s))
    case Ok(n) => Ok(ResidueID(NonDigitsOf(s), n))
    case Err(e) => Err(e)
  }

  /** Printing and reading back give the same identifier, for a chain
      without digits and a non-negative 32-bit number. */
  lemma FromStringToString(r: ResidueID)
    requires forall i :: 0 <= i < |r.chainID| ==> !IsDigit(r.chainID[i])
    requires 0 <= r.residueNumber <= Int32Max
    ensures FromString(ToString(r)) == Ok(r)
  {
    var digits := NatToString(r.residueNumber);
    SplitAppend(r.chainID, digits);
    SplitOfNonDigits(r.chainID);
    SplitOfDigits(digits);
    NatToStringRoundTrip(r.residueNumber);
    var s := ToString(r);
    assert s == r.chainID + digits;
    assert DigitsOf(s) == digits && NonDigitsOf(s) == r.chainID;
    assert ParseDigits(digits) == Ok(r.residueNumber);
  }

  /** A chain containing a digit does not survive the round trip. */
  lemma DigitInChainIsLost()
    ensures FromString(ToString(ResidueID("A1", 2))) == Ok(ResidueID("A", 12))
  {
    var s := ToString(ResidueID("A1", 2));
    assert NatToString(2) == "2";
    assert s == "A12";
    assert s[1..] == "12" && s[2..] == "2" && s[3..] == [];
    assert DigitsOf(s) == "12";
    assert NonDigitsOf(s) == "A";
    assert DigitsValue("12") == 12 by {
      assert "12"[..1] == "1";
    }
  }

  /** Three-way comparison: chain first (ordinal), then number. */
  function Compare(a: ResidueID, b: ResidueID): (c: int)
    ensures -1 <= c <= 1
  {
    var chain := CompareOrdinal(a.chainID, b.chainID);
    if chain != 0 then chain else CompareInt(a.residueNumber, b.residueNumber)
  }

  lemma CompareZeroIffEqual(a: ResidueID, b: ResidueID)
    ensures Compare(a, b) == 0 <==> a == b
  {
    CompareOrdinalZero(a.chainID, b.chainID);
  }

  lemma CompareAntisymmetric(a: ResidueID, b: ResidueID)
    ensures Compare(a, b) == -Compare(b, a)
  {
    CompareOrdinalAntisymmetric(a.chainID, b.chainID);
    CompareOrdinalZero(a.chainID, b.chainID);
  }

  lemma CompareTransitive(a: ResidueID, b: ResidueID, c: ResidueID)
    requires Compare(a, b) < 0 && Compare(b, c) < 0
    ensures Compare(a, c) < 0
  {
    CompareOrdinalZero(a.chainID, b.chainID);
    CompareOrdinalZero(b.chainID, c.chainID);
    CompareOrdinalZero(a.chainID, c.chainID);
    if CompareOrdinal(a.chainID, b.chainID) < 0 && CompareOrdinal(b.chainID, c.chainID) < 0 {
      CompareOrdinalTransitive(a.chainID, b.chainID, c.chainID);
    }
  }

  /** Residues of one chain are ordered by number ("A1" < "A2" < "B1"). */
  lemma SameChainByNumber(a: ResidueID, b: ResidueID)
    requires a.chainID == b.chainID
    ensures Compare(a, b) < 0 <==> a.residueNumber < b.residueNumber
  {
    CompareOrdinalZero(a.chainID, b.chainID);
  }

  /** The next residue of the same chain. */
  function NextID(r: ResidueID): (n: ResidueID)
    ensures n.chainID == r.chainID && n.residueNumber == r.residueNumber + 1
  {
    ResidueID(r.chainID, r.residueNumber + 1)
  }

  datatype IDError = NoPreviousNumber

  /** The previous residue of the same chain; refused at number 0. */
  function PreviousID(r: ResidueID): (p: Result<ResidueID, IDError>)
    ensures r.residueNumber == 0 <==> p.Err?
    ensures p.Ok? ==> p.value.chainID == r.chainID && p.value.residueNumber == r.residueNumber - 1
  {
    if r.residueNumber == 0 then Err(NoPreviousNumber) else Ok(ResidueID(r.chainID, r.residueNumber - 1))
  }

  /** Stepping forward then back returns the same identifier, except from
      -1, whose successor 0 has no predecessor. */
  lemma PreviousOfNext(r: ResidueID)
    ensures r.residueNumber != -1 ==> PreviousID(NextID(r)) == Ok(r)
    ensures r.residueNumber == -1 ==> PreviousID(NextID(r)).Err?
  {
  }

  lemma NextOfPrevious(r: ResidueID)
    requires r.residueNumber != 0
    ensures PreviousID(r).Ok? && NextID(PreviousID(r).value) == r
  {
  }
}
