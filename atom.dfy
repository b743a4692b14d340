/** Atom names within a residue (PDB IDs), atom identifiers across a
    structure (Atom IDs) and the connection tables an atom keeps to its
    neighbours. */
module Atoms {
  import opened Wrappers
  import opened Text
  import opened ResidueIDs

  /** Elements are numbered as in the element enumeration: the placeholder
      X is 0 and every real element sits at its atomic number. */
  type Element = nat

  const X: Element := 0
  const H: Element := 1
  const C: Element := 6
  const N: Element := 7
  const O: Element := 8
  const S: Element := 16

  /** The element table: chemical symbol to element. */
  type ElementMap = map<string, Element>

  datatype BondType = NONE | SINGLE | AROMATIC | DOUBLE | TRIPLE

  datatype OniomLayerID = REAL | INTERMEDIATE | MODEL

  datatype ConnectionType =
    | NULL | C_VALENT | N_VALENT | SG_VALENT | C_OCCUPIED | N_OCCUPIED | SG_OCCUPIED
    | OTHER_VALENT | OTHER_OCCUPIED

  /** The name of an atom inside its residue: element, identifier (the
      Greek-letter position such as "A" or "G1") and a number that
      separates atoms sharing element and identifier. */
  datatype PDBID = PDBID(element: Element, identifier: string, number: int)

  /** An atom anywhere in a structure. */
  datatype AtomID = AtomID(residueID: ResidueID, pdbID: PDBID)

  datatype PDBIDError =
    | WrongLength(length: nat)
    | UnknownElement(symbol: string)
    | EmptyName
    | NumberBelowZero

  /** The placeholder name. */
  const EmptyPDBID := PDBID(X, "", 0)

  /** The placeholder test: the name is the placeholder and nothing else. */
  predicate IsEmpty(p: PDBID): (r: bool)
    ensures r <==> p == EmptyPDBID
  {
    p.element == X && p.identifier == [] && p.number == 0
  }

  /** Builds a name from a chemical symbol; a symbol missing from the element
      table is an error. */
  function MakePDBID(symbols: ElementMap, symbol: string, identifier: string, number: int): (r: Result<PDBID, PDBIDError>)
    ensures symbol in symbols <==> r.Ok?
    ensures r.Ok? ==> r.value == PDBID(symbols[symbol], identifier, number)
    ensures r.Err? ==> r.error == UnknownElement(symbol)
  {
    if symbol in symbols then Ok(PDBID(symbols[symbol], identifier, number)) else Err(UnknownElement(symbol))
  }

  /** The first character upper case and the rest lower case ("FE" to "Fe"). */
  function Capitalised(s: string): (r: string)
    requires s != []
    ensures |r| == |s| && r[0] == ToUpper(ToLower(s[0]))
    ensures forall i :: 0 < i < |s| ==> r[i] == ToLower(s[i])
  {
    var lower := Lower(s);
    [ToUpper(lower[0])] + lower[1..]
  }

  /** The two-letter element symbol written at the start of a name. */
  function TwoLetterSymbol(p: string): string
    requires |p| >= 2
  {
    [ToUpper(p[0]), ToLower(p[1])]
  }

  /** A name the parser can produce: a known element, an identifier of at
      most two characters and a number of at most two digits. */
  predicate Parsed(symbols: ElementMap, r: Result<PDBID, PDBIDError>) {
    r.Ok? ==> r.value.element in symbols.Values && 0 <= r.value.number <= 99 && |r.value.identifier| <= 2
  }

  /** Reads a four-character atom name. The layouts it accepts:
      - the trimmed name equals the residue name: a metal ion, the element
        alone;
      - digits in the last two places: " H10" (element, two-digit number)
        or the old "HG11" (element, identifier of the middle two, number);
      - a leading digit, the new "1HG1": number, element, identifier;
      - a leading space: " N  ", " N1 ", " NA1" or " NA " / " OXT";
      - otherwise a two-letter element ("NA1 ", "NA  ") or "NAB1". */
  function FromString(symbols: ElementMap, pdbName: string, residueName: string): (r: Result<PDBID, PDBIDError>)
    ensures |pdbName| != 4 ==> r == Err(WrongLength(|pdbName|))
    ensures r.Ok? ==> |pdbName| == 4
    ensures Parsed(symbols, r)
  {
    if |pdbName| != 4 then Err(WrongLength(|pdbName|))
    else
      var trimmed := Trim(pdbName);
      if EqualsIgnoreCase(trimmed, residueName) then
        if trimmed == [] then Err(EmptyName) else MakePDBID(symbols, Capitalised(trimmed), "", 0)
      else ReadLayout(symbols, pdbName)
  }

  /** The layouts other than a metal ion, told apart by which columns hold
      digits and spaces. */
  function ReadLayout(symbols: ElementMap, p: string): (r: Result<PDBID, PDBIDError>)
    requires |p| == 4
    ensures Parsed(symbols, r)
  {
    if IsDigit(p[2]) && IsDigit(p[3]) then ReadNumbered(symbols, p)
    else if IsDigit(p[0]) then MakePDBID(symbols, p[1..2], Trim(p[2..4]), DigitValue(p[0]))
    else if IsSpace(p[0]) then ReadIndented(symbols, p)
    else ReadUnindented(symbols, p)
  }

  /** Without a residue name, any name with a non-space character is read
      by its layout. */
  lemma NotMetalIon(symbols: ElementMap, p: string, k: nat)
    requires |p| == 4 && k < 4 && !IsSpace(p[k])
    ensures FromString(symbols, p, "") == ReadLayout(symbols, p)
  {
    TrimNonEmpty(p, k);
    assert |Lower(Trim(p))| != |Lower("")|;
  }

  /** Names ending in two digits: " H10" or the old-style "HG11". */
  function ReadNumbered(symbols: ElementMap, p: string): (r: Result<PDBID, PDBIDError>)
    requires |p| == 4 && IsDigit(p[2]) && IsDigit(p[3])
    ensures Parsed(symbols, r)
  {
    if IsSpace(p[0]) then
      assert DigitsValue(p[2..4]) == DigitValue(p[2]) * 10 + DigitValue(p[3]) by {
        var q := p[2..4];
        assert q[..1] == [p[2]] && q[..1][..0] == [];
        assert DigitsValue(q) == DigitsValue(q[..1]) * 10 + DigitValue(q[1]);
        assert DigitsValue(q[..1]) == DigitsValue(q[..1][..0]) * 10 + DigitValue(q[0]);
      }
      MakePDBID(symbols, p[1..2], "", DigitsValue(p[2..4]))
    else MakePDBID(symbols, p[0..1], Trim(p[1..3]), DigitValue(p[3]))
  }

  /** Names starting with a space: " N1 ", " N  ", " NA1", " NA " or " OXT". */
  function ReadIndented(symbols: ElementMap, p: string): (r: Result<PDBID, PDBIDError>)
    requires |p| == 4
    ensures Parsed(symbols, r)
  {
    if IsDigit(p[2]) then MakePDBID(symbols, p[1..2], "", DigitValue(p[2]))
    else if IsSpace(p[2]) then MakePDBID(symbols, p[1..2], "", 0)
    else if IsDigit(p[3]) then MakePDBID(symbols, p[1..2], p[2..3], DigitValue(p[3]))
    else MakePDBID(symbols, p[1..2], Trim(p[2..4]), 0)
  }

  /** Names starting with a letter: "NA1 ", "NAB1" or "NA  ". */
  function ReadUnindented(symbols: ElementMap, p: string): (r: Result<PDBID, PDBIDError>)
    requires |p| == 4
    ensures Parsed(symbols, r)
  {
    if IsDigit(p[2]) then MakePDBID(symbols, TwoLetterSymbol(p), "", DigitValue(p[2]))
    else if IsDigit(p[3]) then MakePDBID(symbols, p[0..1], p[1..3], DigitValue(p[3]))
    else MakePDBID(symbols, TwoLetterSymbol(p), "", 0)
  }

  /** The element table knows carbon and hydrogen. */
  predicate KnowsCarbonAndHydrogen(symbols: ElementMap) {
    "C" in symbols && symbols["C"] == C && "H" in symbols && symbols["H"] == H
  }

  /** " CA " is the alpha carbon. */
  lemma ParsesAlphaCarbon(symbols: ElementMap)
    requires KnowsCarbonAndHydrogen(symbols)
    ensures FromString(symbols, " CA ", "") == Ok(PDBID(C, "A", 0))
  {
    var p := " CA ";
    assert ReadLayout(symbols, p) == Ok(PDBID(C, "A", 0)) by {
      assert p[1..2] == "C" && p[2..4] == ['A', ' '];
      TrimTrailingSpace('A');
      assert !IsDigit(p[2]) && IsSpace(p[0]) && !IsSpace(p[2]) && !IsDigit(p[3]);
    }
    NotMetalIon(symbols, p, 1);
  }

  /** "1HG1", the new-style name, is hydrogen 1 at position G1. */
  lemma ParsesNewStyleHydrogen(symbols: ElementMap)
    requires KnowsCarbonAndHydrogen(symbols)
    ensures FromString(symbols, "1HG1", "") == Ok(PDBID(H, "G1", 1))
  {
    NewStyleName(symbols, "1HG1", H, "H", "G1", 1);
  }

  /** A leading digit, a one-letter element and a two-letter identifier. */
  lemma NewStyleName(symbols: ElementMap, p: string, e: Element, symbol: string, identifier: string, number: nat)
    requires |p| == 4 && |symbol| == 1 && |identifier| == 2 && number < 10
    requires IsDigit(p[0]) && DigitValue(p[0]) == number && p[1] == symbol[0] && p[2..4] == identifier
    requires IsLetter(identifier[0]) && !IsSpace(identifier[1])
    requires symbol in symbols && symbols[symbol] == e && IsLetter(symbol[0])
    ensures FromString(symbols, p, "") == Ok(PDBID(e, identifier, number))
  {
    SliceOne(p, 1, symbol);
    TrimUntouched(identifier);
    assert p[2] == identifier[0] && !IsDigit(p[2]) && IsDigit(p[0]);
    assert ReadLayout(symbols, p) == MakePDBID(symbols, symbol, identifier, number);
    NotMetalIon(symbols, p, 1);
  }

  /** Any input that is not four characters long is refused. */
  lemma OnlyFourCharacterNames(symbols: ElementMap, pdbName: string, residueName: string)
    requires FromString(symbols, pdbName, residueName).Ok?
    ensures |pdbName| == 4
  {
  }

  /** The four-character name, given the element's chemical symbol: a
      two-letter symbol is followed by the identifier and the number; a
      one-letter one goes in the second column, or the number comes first
      when symbol and identifier fill three columns. */
  function ToString(p: PDBID, symbol: string): (r: string)
    ensures 1 <= |symbol| <= 2 && |symbol| + |p.identifier| <= 3 && 0 <= p.number < 10 ==> |r| == 4
    ensures |symbol| == 2 ==> |r| >= 4 && r[..2] == symbol
    ensures |symbol| == 1 && |p.identifier| != 2 ==> |r| >= 4 && r[1] == symbol[0]
    ensures |symbol| == 1 && |p.identifier| == 2 && 0 <= p.number < 10 ==> r[1] == symbol[0] && r[2..] == p.identifier
  {
    var numStr := if p.number == 0 then " " else IntToString(p.number);
    if |symbol| == 2 then PadRight(symbol + p.identifier + numStr, 4)
    else
      var name := symbol + p.identifier;
      if |name| == 3 then numStr + name else PadRight(" " + name + numStr, 4)
  }

  predicate AllLetters(s: string) {
    forall i :: 0 <= i < |s| ==> IsLetter(s[i])
  }

  /** A name with a one-letter element, an identifier of at most two letters
      and a single-digit number is read back from its text form unchanged. */
  lemma FromStringToStringOneLetter(symbols: ElementMap, p: PDBID, symbol: string)
    requires |symbol| == 1 && IsLetter(symbol[0])
    requires symbol in symbols && symbols[symbol] == p.element
    requires |p.identifier| <= 2 && AllLetters(p.identifier)
    requires 0 <= p.number <= 9
    ensures FromString(symbols, ToString(p, symbol), "") == Ok(p)
  {
    var s := ToString(p, symbol);
    NotMetalIon(symbols, s, 1);
    var numStr := if p.number == 0 then " " else IntToString(p.number);
    assert p.number > 0 ==> numStr == [DigitChar(p.number)];
    if |p.identifier| == 2 {
      ThreeColumnName(symbols, p, symbol, numStr);
    } else if |p.identifier| == 1 {
      TwoColumnName(symbols, p, symbol, numStr);
    } else {
      OneColumnName(symbols, p, symbol, numStr);
    }
  }

  /** A one-letter element and a one-letter identifier, after a space. */
  lemma TwoColumnName(symbols: ElementMap, p: PDBID, symbol: string, numStr: string)
    requires |symbol| == 1 && IsLetter(symbol[0])
    requires symbol in symbols && symbols[symbol] == p.element
    requires |p.identifier| == 1 && IsLetter(p.identifier[0])
    requires 0 <= p.number <= 9
    requires numStr == if p.number == 0 then " " else [DigitChar(p.number)]
    ensures ReadLayout(symbols, ToString(p, symbol)) == Ok(p)
  {
    var s := ToString(p, symbol);
    assert s == " " + symbol + p.identifier + numStr;
    SliceOne(s, 1, symbol);
    assert IsSpace(s[0]) && !IsDigit(s[2]) && !IsSpace(s[2]);
    if p.number == 0 {
      assert !IsDigit(s[3]);
      assert s[2..4] == [p.identifier[0], ' '];
      TrimTrailingSpace(p.identifier[0]);
      assert p.identifier == [p.identifier[0]];
      assert ReadLayout(symbols, s) == MakePDBID(symbols, symbol, p.identifier, 0);
    } else {
      SliceOne(s, 2, p.identifier);
      assert IsDigit(s[3]) && DigitValue(s[3]) == p.number;
      assert ReadLayout(symbols, s) == MakePDBID(symbols, symbol, p.identifier, p.number);
    }
  }

  /** A one-letter element alone, after a space, with the number after it. */
  lemma OneColumnName(symbols: ElementMap, p: PDBID, symbol: string, numStr: string)
    requires |symbol| == 1 && IsLetter(symbol[0])
    requires symbol in symbols && symbols[symbol] == p.element
    requires p.identifier == [] && 0 <= p.number <= 9
    requires numStr == if p.number == 0 then " " else [DigitChar(p.number)]
    ensures ReadLayout(symbols, ToString(p, symbol)) == Ok(p)
  {
    var s := ToString(p, symbol);
    assert s == " " + symbol + numStr + " ";
    SliceOne(s, 1, symbol);
    assert IsSpace(s[0]) && !IsDigit(s[3]);
    if p.number == 0 {
      assert IsSpace(s[2]);
      assert ReadLayout(symbols, s) == MakePDBID(symbols, symbol, "", 0);
    } else {
      assert IsDigit(s[2]) && DigitValue(s[2]) == p.number;
      assert ReadLayout(symbols, s) == MakePDBID(symbols, symbol, "", p.number);
    }
  }

  /** The three-column case: a one-letter element and a two-letter
      identifier, preceded by the number or by a space. */
  lemma ThreeColumnName(symbols: ElementMap, p: PDBID, symbol: string, numStr: string)
    requires |symbol| == 1 && IsLetter(symbol[0])
    requires symbol in symbols && symbols[symbol] == p.element
    requires |p.identifier| == 2 && AllLetters(p.identifier)
    requires 0 <= p.number <= 9
    requires numStr == if p.number == 0 then " " else [DigitChar(p.number)]
    ensures ReadLayout(symbols, ToString(p, symbol)) == Ok(p)
  {
    var s := ToString(p, symbol);
    assert s == numStr + symbol + p.identifier;
    assert s[1..2] == symbol && s[2..4] == p.identifier;
    assert !IsDigit(s[2]) && !IsDigit(s[3]) && !IsSpace(s[2]);
    TrimUntouched(p.identifier);
    if p.number == 0 {
      assert IsSpace(s[0]);
      assert ReadLayout(symbols, s) == MakePDBID(symbols, symbol, p.identifier, 0);
    } else {
      assert IsDigit(s[0]) && DigitValue(s[0]) == p.number;
      assert ReadLayout(symbols, s) == MakePDBID(symbols, symbol, p.identifier, p.number);
    }
  }

  /** A bare two-letter element ("Na  ") with no identifier and a
      single-digit number is read back unchanged. */
  lemma FromStringToStringTwoLetters(symbols: ElementMap, p: PDBID, symbol: string)
    requires |symbol| == 2 && 'A' <= symbol[0] <= 'Z' && 'a' <= symbol[1] <= 'z'
    requires symbol in symbols && symbols[symbol] == p.element
    requires p.identifier == [] && 0 <= p.number <= 9
    ensures FromString(symbols, ToString(p, symbol), "") == Ok(p)
  {
    var s := ToString(p, symbol);
    var numStr := if p.number == 0 then " " else IntToString(p.number);
    assert p.number > 0 ==> numStr == [DigitChar(p.number)];
    assert s == symbol + numStr + " ";
    assert TwoLetterSymbol(s) == symbol;
    NotMetalIon(symbols, s, 0);
  }

  /** Two names that differ only in the identifier's hidden digit can share
      a text form: hydrogen G1 with no number and hydrogen G numbered 1 are
      both " HG1", which reads back as the latter. */
  lemma AmbiguousName(symbols: ElementMap)
    requires KnowsCarbonAndHydrogen(symbols)
    ensures ToString(PDBID(H, "G1", 0), "H") == ToString(PDBID(H, "G", 1), "H") == " HG1"
    ensures FromString(symbols, " HG1", "") == Ok(PDBID(H, "G", 1))
  {
    assert NatToString(1) == "1";
    var p := " HG1";
    NotMetalIon(symbols, p, 1);
    assert p[1..2] == "H" && p[2..3] == "G";
  }

  /** Three-way comparison: element, then identifier (ordinal), then number. */
  function Compare(a: PDBID, b: PDBID): (c: int)
    ensures -1 <= c <= 1
  {
    var byElement := CompareInt(a.element, b.element);
    if byElement != 0 then byElement
    else
      var byIdentifier := CompareOrdinal(a.identifier, b.identifier);
      if byIdentifier != 0 then byIdentifier else CompareInt(a.number, b.number)
  }

  lemma CompareZeroIffEqual(a: PDBID, b: PDBID)
    ensures Compare(a, b) == 0 <==> a == b
  {
    CompareOrdinalZero(a.identifier, b.identifier);
  }

  lemma CompareAntisymmetric(a: PDBID, b: PDBID)
    ensures Compare(a, b) == -Compare(b, a)
  {
    CompareOrdinalAntisymmetric(a.identifier, b.identifier);
  }

  lemma CompareTransitive(a: PDBID, b: PDBID, c: PDBID)
    requires Compare(a, b) < 0 && Compare(b, c) < 0
    ensures Compare(a, c) < 0
  {
    CompareOrdinalZero(a.identifier, b.identifier);
    CompareOrdinalZero(b.identifier, c.identifier);
    CompareOrdinalZero(a.identifier, c.identifier);
    if a.element == b.element == c.element
      && CompareOrdinal(a.identifier, b.identifier) < 0 && CompareOrdinal(b.identifier, c.identifier) < 0
    {
      CompareOrdinalTransitive(a.identifier, b.identifier, c.identifier);
    }
  }

  /** The element decides first: a lighter element sorts earlier whatever
      the identifiers and numbers. */
  lemma CompareByElementFirst(a: PDBID, b: PDBID)
    requires a.element < b.element
    ensures Compare(a, b) < 0
  {
  }

  /** Element and identifier agree: the names differ at most in their number. */
  predicate TypeEquals(a: PDBID, b: PDBID): (r: bool)
    ensures r <==> a.(number := b.number) == b
  {
    a.element == b.element && a.identifier == b.identifier
  }

  /** The same name numbered one higher. */
  function NextNumber(p: PDBID): (q: PDBID)
    ensures TypeEquals(p, q) && q.number == p.number + 1
  {
    PDBID(p.element, p.identifier, p.number + 1)
  }

  /** The same name numbered one lower; refused at number 0. */
  function PreviousNumber(p: PDBID): (q: Result<PDBID, PDBIDError>)
    ensures p.number == 0 <==> q == Err(NumberBelowZero)
    ensures q.Ok? ==> TypeEquals(p, q.value) && q.value.number == p.number - 1
  {
    if p.number == 0 then Err(NumberBelowZero) else Ok(PDBID(p.element, p.identifier, p.number - 1))
  }

  /** Numbering up and down are inverse away from the refused step. */
  lemma PreviousOfNextNumber(p: PDBID)
    ensures p.number != -1 ==> PreviousNumber(NextNumber(p)) == Ok(p)
    ensures p.number == -1 ==> PreviousNumber(NextNumber(p)).Err?
  {
  }

  /** The next number sorts straight after its name. */
  lemma NextNumberSortsAfter(p: PDBID)
    ensures Compare(p, NextNumber(p)) < 0
  {
    CompareOrdinalZero(p.identifier, p.identifier);
  }

  // ---------------------------------------------------------------------
  // Atom IDs

  /** Three-way comparison: residue first, then name. */
  function CompareAtomIDs(a: AtomID, b: AtomID): (c: int)
    ensures -1 <= c <= 1
  {
    var byResidue := ResidueIDs.Compare(a.residueID, b.residueID);
    if byResidue != 0 then byResidue else Compare(a.pdbID, b.pdbID)
  }

  lemma CompareAtomIDsZeroIffEqual(a: AtomID, b: AtomID)
    ensures CompareAtomIDs(a, b) == 0 <==> a == b
  {
    ResidueIDs.CompareZeroIffEqual(a.residueID, b.residueID);
    CompareZeroIffEqual(a.pdbID, b.pdbID);
  }

  lemma CompareAtomIDsAntisymmetric(a: AtomID, b: AtomID)
    ensures CompareAtomIDs(a, b) == -CompareAtomIDs(b, a)
  {
    ResidueIDs.CompareAntisymmetric(a.residueID, b.residueID);
    CompareAntisymmetric(a.pdbID, b.pdbID);
  }

  datatype AtomIDError =
    | TooShort(length: nat)
    | BadResidueID(parse: ParseError)
    | BadPDBID(pdb: PDBIDError)

  /** The text form: the residue ID followed by the name. */
  function AtomIDToString(id: AtomID, symbol: string): (s: string)
    ensures var name := ToString(id.pdbID, symbol);
      |name| < |s| && s[|s| - |name|..] == name
    ensures ((forall i :: 0 <= i < |id.residueID.chainID| ==> !IsDigit(id.residueID.chainID[i]))
        && 0 <= id.residueID.residueNumber <= Int32Max) ==>
      ResidueIDs.FromString(s[..|s| - |ToString(id.pdbID, symbol)|]) == Ok(id.residueID)
  {
    var s := ResidueIDs.ToString(id.residueID) + ToString(id.pdbID, symbol);
    assert s[..|s| - |ToString(id.pdbID, symbol)|] == ResidueIDs.ToString(id.residueID);
    if (forall i :: 0 <= i < |id.residueID.chainID| ==> !IsDigit(id.residueID.chainID[i]))
      && 0 <= id.residueID.residueNumber <= Int32Max
    then
      ResidueIDs.FromStringToString(id.residueID);
      s
    else s
  }

  /** Reads an atom ID: the last four characters are the name, everything
      before them the residue ID. */
  function AtomIDFromString(symbols: ElementMap, s: string): (r: Result<AtomID, AtomIDError>)
    ensures |s| < 4 <==> r == Err(TooShort(|s|))
    ensures r.Ok? <==> |s| >= 4 && ResidueIDs.FromString(s[..|s| - 4]).Ok? && FromString(symbols, s[|s| - 4..], "").Ok?
    ensures r.Ok? ==>
      r.value.residueID == ResidueIDs.FromString(s[..|s| - 4]).value
      && r.value.pdbID == FromString(symbols, s[|s| - 4..], "").value
  {
    if |s| < 4 then Err(TooShort(|s|))
    else match ResidueIDs.FromString(s[..|s| - 4])
      case Err(e) => Err(BadResidueID(e))
      case Ok(rid) =>
        match FromString(symbols, s[|s| - 4..], "")
        case Err(e) => Err(BadPDBID(e))
        case Ok(pdb) => Ok(AtomID(rid, pdb))
  }

  /** An atom ID whose residue ID and four-character name both read back
      reads back as a whole. */
  lemma AtomIDRoundTrip(symbols: ElementMap, id: AtomID, symbol: string)
    requires ResidueIDs.FromString(ResidueIDs.ToString(id.residueID)) == Ok(id.residueID)
    requires |ToString(id.pdbID, symbol)| == 4
    requires FromString(symbols, ToString(id.pdbID, symbol), "") == Ok(id.pdbID)
    ensures AtomIDFromString(symbols, AtomIDToString(id, symbol)) == Ok(id)
  {
    var r := ResidueIDs.ToString(id.residueID);
    var p := ToString(id.pdbID, symbol);
    var s := AtomIDToString(id, symbol);
    assert s[..|s| - 4] == r && s[|s| - 4..] == p;
  }

  // ---------------------------------------------------------------------
  // Atoms

  /** An atom with its connections: `internalConnections` to atoms of its
      own residue, keyed by name, and `externalConnections` to atoms of
      other residues, keyed by atom ID. Position is not modelled. */
  class Atom {
    var residueID: ResidueID
    var amber: string
    var partialCharge: real
    var connectionType: ConnectionType
    var oniomLayer: OniomLayerID
    var internalConnections: map<PDBID, BondType>
    var externalConnections: map<AtomID, BondType>

    /** No external connection points into the atom's own residue, as
        `Connect` keeps it. */
    predicate Valid()
      reads this
    {
      forall id :: id in externalConnections ==> id.residueID != residueID
    }

    constructor (residueID: ResidueID, amber: string, partialCharge: real, oniomLayer: OniomLayerID)
      ensures this.residueID == residueID && this.amber == amber
      ensures this.partialCharge == partialCharge && this.oniomLayer == oniomLayer
      ensures connectionType == NULL
      ensures internalConnections == map[] && externalConnections == map[]
      ensures Valid()
    {
      this.residueID := residueID;
      this.amber := amber;
      this.partialCharge := partialCharge;
      this.oniomLayer := oniomLayer;
      connectionType := NULL;
      internalConnections := map[];
      externalConnections := map[];
    }

    /** Whether `id` is a neighbour: exactly the IDs `Neighbours` enumerates. */
    predicate IsConnectedTo(id: AtomID): (r: bool)
      reads this
      ensures r <==> id in Neighbours()
    {
      (id.residueID == residueID && id.pdbID in internalConnections) || id in externalConnections
    }

    /** The atom IDs of all neighbours, internal ones completed with this
        atom's residue ID. */
    function Neighbours(): (r: set<AtomID>)
      reads this
      ensures forall p :: p in internalConnections ==> AtomID(residueID, p) in r
      ensures externalConnections.Keys <= r
      ensures forall id :: id in r && id !in externalConnections ==>
        id.residueID == residueID && id.pdbID in internalConnections
    {
      (set p | p in internalConnections :: AtomID(residueID, p)) + externalConnections.Keys
    }

    /** The neighbours are exactly the atoms this one is connected to. */
    lemma NeighboursAreConnections(id: AtomID)
      ensures id in Neighbours() <==> IsConnectedTo(id)
    {
    }

    /** Records a bond: internal when the other atom is in the same residue,
        external otherwise. */
    method Connect(id: AtomID, bondType: BondType)
      modifies this
      ensures id.residueID == residueID ==>
        internalConnections == old(internalConnections)[id.pdbID := bondType]
        && externalConnections == old(externalConnections)
      ensures id.residueID != residueID ==>
        externalConnections == old(externalConnections)[id := bondType]
        && internalConnections == old(internalConnections)
      ensures residueID == old(residueID) && amber == old(amber) && partialCharge == old(partialCharge)
      ensures connectionType == old(connectionType) && oniomLayer == old(oniomLayer)
      ensures IsConnectedTo(id)
      ensures Neighbours() == old(Neighbours()) + {id}
      ensures old(Valid()) ==> Valid()
    {
      if id.residueID == residueID {
        internalConnections := internalConnections[id.pdbID := bondType];
      } else {
        externalConnections := externalConnections[id := bondType];
      }
    }

    /** Removes a bond if there is one, and says whether there was. */
    method TryDisconnect(id: AtomID) returns (removed: bool)
      modifies this
      ensures removed == old(IsConnectedTo(id))
      ensures old(id.residueID == residueID && id.pdbID in internalConnections) ==>
        internalConnections == old(internalConnections) - {id.pdbID}
        && externalConnections == old(externalConnections)
      ensures !old(id.residueID == residueID && id.pdbID in internalConnections) ==>
        externalConnections == old(externalConnections) - {id}
        && internalConnections == old(internalConnections)
      ensures residueID == old(residueID) && amber == old(amber) && partialCharge == old(partialCharge)
      ensures connectionType == old(connectionType) && oniomLayer == old(oniomLayer)
      ensures old(Valid()) ==> Valid() && !IsConnectedTo(id)
      ensures old(Valid()) ==> Neighbours() == old(Neighbours()) - {id}
    {
      if id.residueID == residueID && id.pdbID in internalConnections {
        internalConnections := internalConnections - {id.pdbID};
      } else if id in externalConnections {
        externalConnections := externalConnections - {id};
      } else {
        return false;
      }
      return true;
    }

    /** A new atom with the same residue, type, charge, layer, connection
        type and connection tables. */
    method Copy() returns (a: Atom)
      ensures fresh(a)
      ensures a.residueID == residueID && a.amber == amber && a.partialCharge == partialCharge
      ensures a.oniomLayer == oniomLayer && a.connectionType == connectionType
      ensures a.internalConnections == internalConnections && a.externalConnections == externalConnections
    {
      a := new Atom(residueID, amber, partialCharge, oniomLayer);
      a.connectionType := connectionType;
      a.externalConnections := externalConnections;
      a.internalConnections := internalConnections;
    }
  }

  /** Connecting and then disconnecting the same atom ID removes the bond
      again and says so. */
  method ConnectThenDisconnect(a: Atom, id: AtomID, bondType: BondType) returns (removed: bool)
    requires a.Valid()
    modifies a
    ensures removed && !a.IsConnectedTo(id) && a.Valid()
  {
    a.Connect(id, bondType);
    removed := a.TryDisconnect(id);
  }

  /** A bond added to a copy is not seen by the original. */
  method CopyIsIndependent(a: Atom, id: AtomID, bondType: BondType) returns (b: Atom)
    requires !a.IsConnectedTo(id)
    ensures fresh(b) && b.IsConnectedTo(id) && !a.IsConnectedTo(id)
    ensures a.internalConnections == old(a.internalConnections) && a.externalConnections == old(a.externalConnections)
  {
    b := a.Copy();
    b.Connect(id, bondType);
  }
}
