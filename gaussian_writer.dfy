/** The pieces of a Gaussian input file that are built from the job
    settings: keyword items, the method item of a single or ONIOM job, the
    charge and multiplicity line, the geometry keyword and the numbering of
    atoms that connectivity and link lines refer to. */
module GaussianInput {
  import opened Wrappers
  import opened Text
  import opened Atoms
  import ResidueIDs
  import opened GaussianCalculators

  // ---------------------------------------------------------------------
  // Keyword items

  /** `GetKeywordItem`: the keyword alone when there are no options, "k=o "
      for one option and "k=(o1,o2,...)" for several. */
  function GetKeywordItem(keyword: string, options: Option<seq<string>>): (r: string)
    ensures |r| >= |keyword| && r[..|keyword|] == keyword
    ensures r == keyword <==> options.None? || options.value == []
  {
    keyword + KeywordOptions(OptionList(options))
  }

  /** The options of a keyword item, an absent list read as an empty one. */
  function OptionList(options: Option<seq<string>>): seq<string> {
    if options.None? then [] else options.value
  }

  /** What follows the keyword: nothing, "=o " or "=(o1,o2,...)". */
  function KeywordOptions(options: seq<string>): (t: string)
    ensures t == [] <==> options == []
    ensures t != [] ==> t[0] == '='
  {
    if |options| == 0 then ""
    else if |options| == 1 then "=" + options[0] + " "
    else "=" + "(" + Join(options, ",") + ")"
  }

  /** Reads the options back from what follows the '=': text ending in a
      space is one option, anything else a parenthesised list. */
  function ParseKeywordOptions(rest: string): seq<string> {
    if rest == [] then []
    else if rest[|rest| - 1] == ' ' then [rest[..|rest| - 1]]
    else if |rest| >= 2 then Split(rest[1..|rest| - 1], ',')
    else []
  }

  /** Reads a keyword item back: the keyword runs up to the first '='. */
  function ParseKeywordItem(s: string): (string, seq<string>) {
    var h := IndexOfAny(s, {'='});
    (s[..h], if h < |s| then ParseKeywordOptions(s[h + 1..]) else [])
  }

  lemma KeywordOptionsRoundTrip(options: seq<string>)
    requires options != [] && CommaFree(options)
    ensures ParseKeywordOptions(KeywordOptions(options)[1..]) == options
  {
    var rest := KeywordOptions(options)[1..];
    if |options| == 1 {
      assert rest == options[0] + " ";
      assert rest[..|rest| - 1] == options[0];
    } else {
      assert rest == "(" + Join(options, ",") + ")";
      assert rest[1..|rest| - 1] == Join(options, ",");
      SplitJoin(options, ',');
    }
  }

  /** A keyword item is read back into its keyword and options, as long as
      the keyword holds no '=' and several options no comma. */
  lemma KeywordItemRoundTrip(keyword: string, options: Option<seq<string>>)
    requires '=' !in keyword && CommaFree(OptionList(options))
    ensures ParseKeywordItem(GetKeywordItem(keyword, options)) == (keyword, OptionList(options))
  {
    var t := KeywordOptions(OptionList(options));
    var s := keyword + t;
    assert s[..|keyword|] == keyword;
    if t != [] {
      assert s[|keyword|] == '=';
      assert s[|keyword| + 1..] == t[1..];
      KeywordOptionsRoundTrip(OptionList(options));
    }
  }

  // ---------------------------------------------------------------------
  // Layers of the job

  /** The layers of the job, highest first: the keys of the layer table
      ordered by descending level. */
  function LayerOrder(layerDict: map<OniomLayerID, Layer>): (r: seq<OniomLayerID>)
    ensures forall x :: x in r <==> x in layerDict
    ensures StrictlyDescending(r)
  {
    DescendingMembers(layerDict.Keys);
    Descending(layerDict.Keys)
  }

  /** The layers stored under `oniomLayers`, in that order. */
  function LayersOf(layerDict: map<OniomLayerID, Layer>, oniomLayers: seq<OniomLayerID>): (r: seq<Layer>)
    requires forall k :: 0 <= k < |oniomLayers| ==> oniomLayers[k] in layerDict
    ensures |r| == |oniomLayers|
    ensures forall k :: 0 <= k < |r| ==> r[k] == layerDict[oniomLayers[k]]
  {
    if oniomLayers == [] then []
    else [layerDict[oniomLayers[0]]] + LayersOf(layerDict, oniomLayers[1..])
  }

  /** The method item of each layer, in order. */
  function MethodItems(layers: seq<Layer>): (r: seq<string>)
    ensures |r| == |layers|
    ensures forall k :: 0 <= k < |r| ==> r[k] == MethodItem(layers[k])
  {
    if layers == [] then [] else [MethodItem(layers[0])] + MethodItems(layers[1..])
  }

  /** `GetMethodsItem`: a single layer writes its own method item; any
      other number of layers writes "ONIOM(m1:m2:...)" followed by the
      ONIOM options. */
  function GetMethodsItem(layers: seq<Layer>, oniomOptions: Option<seq<string>>): (r: string)
    ensures |layers| == 1 && Readable(layers[0]) ==>
      ParseMethodItem(r) == (layers[0].methodName, layers[0].basis, layers[0].options)
    ensures |layers| != 1 ==> |r| > 6 && r[..6] == "ONIOM("
  {
    if |layers| == 1 then
      if Readable(layers[0]) then
        MethodItemRoundTrip(layers[0]);
        MethodItem(layers[0])
      else MethodItem(layers[0])
    else OniomItem(MethodItems(layers), OptionList(oniomOptions))
  }

  /** "ONIOM(m1:m2:...)" followed by the ONIOM options. */
  function OniomItem(items: seq<string>, options: seq<string>): string {
    "ONIOM(" + Join(items, ":") + ")" + OptionsSuffix(options)
  }

  /** `r` opens with "ONIOM(", holds `items` separated by ':' up to a ')'
      and ends with the option suffix that reads back as `options`. */
  predicate OniomShape(r: string, items: seq<string>, options: seq<string>) {
    var inner := Join(items, ":");
    && |r| > 6 + |inner|
    && r[..6] == "ONIOM("
    && Split(r[6..6 + |inner|], ':') == items
    && r[6 + |inner|] == ')'
    && ParseOptionsSuffix(r[7 + |inner|..]) == options
  }

  /** With several layers the item opens with "ONIOM(", the layers' method
      items follow in order separated by ':' (as long as none holds a
      ':'), the list is closed by ')' and the ONIOM options come last. */
  lemma OniomMethodsItem(layers: seq<Layer>, oniomOptions: Option<seq<string>>)
    requires |layers| >= 2
    requires forall k :: 0 <= k < |layers| ==> ':' !in MethodItems(layers)[k]
    requires CommaFree(OptionList(oniomOptions))
    ensures OniomShape(GetMethodsItem(layers, oniomOptions), MethodItems(layers), OptionList(oniomOptions))
  {
    OniomParts(MethodItems(layers), OptionList(oniomOptions));
  }

  /** The parts of an ONIOM item are found where they were written. */
  lemma OniomParts(items: seq<string>, options: seq<string>)
    requires items != [] && forall k :: 0 <= k < |items| ==> ':' !in items[k]
    requires CommaFree(options)
    ensures OniomShape(OniomItem(items, options), items, options)
  {
    ConcatParts("ONIOM(", Join(items, ":"), ")", OptionsSuffix(options));
    SplitJoin(items, ':');
    OptionsSuffixRoundTrip(options);
  }

  /** The four parts of a concatenation are found at their offsets. */
  lemma ConcatParts(a: string, b: string, c: string, d: string)
    ensures var s := a + b + c + d;
      && s[..|a|] == a && s[|a|..|a| + |b|] == b && s[|a| + |b|..|a| + |b| + |c|] == c
      && s[|a| + |b| + |c|..] == d
  {
  }

  /** Without layers the item is an empty ONIOM list. */
  lemma NoLayersMethodsItem()
    ensures GetMethodsItem([], None) == "ONIOM()"
  {
  }

  // ---------------------------------------------------------------------
  // Charge and multiplicity

  /** The charge and multiplicity of one layer, each followed by a space. */
  function Pair(layer: Layer): string {
    IntToString(layer.charge) + " " + IntToString(layer.multiplicity) + " "
  }

  /** The pairs of `layers`, in order. */
  function Pairs(layers: seq<Layer>): string {
    if layers == [] then "" else Pair(layers[0]) + Pairs(layers[1..])
  }

  lemma {:induction false} PairsSnoc(layers: seq<Layer>, layer: Layer)
    ensures Pairs(layers + [layer]) == Pairs(layers) + Pair(layer)
    decreases |layers|
  {
    if layers == [] {
      assert [layer][1..] == [];
    } else {
      assert (layers + [layer])[1..] == layers[1..] + [layer];
      PairsSnoc(layers[1..], layer);
    }
  }

  lemma PrefixSnoc<T>(s: seq<T>, i: nat)
    requires i < |s|
    ensures s[..i + 1] == s[..i] + [s[i]]
  {
  }

  /** `GetChargeMultiplicityString`: the charge and multiplicity of each
      layer, in the order given, then the line break. */
  method GetChargeMultiplicityString(layerDict: map<OniomLayerID, Layer>, oniomLayers: seq<OniomLayerID>,
                                     newLine: string) returns (s: string)
    requires forall k :: 0 <= k < |oniomLayers| ==> oniomLayers[k] in layerDict
    ensures s == Pairs(LayersOf(layerDict, oniomLayers)) + newLine
  {
    ghost var layers := LayersOf(layerDict, oniomLayers);
    var sb := "";
    for i := 0 to |oniomLayers|
      invariant sb == Pairs(layers[..i])
    {
      var layer := layerDict[oniomLayers[i]];
      assert layers[i] == layer;
      PrefixSnoc(layers, i);
      PairsSnoc(layers[..i], layer);
      sb := sb + Pair(layer);
    }
    assert layers[..|oniomLayers|] == layers;
    s := sb + newLine;
  }

  /** The numbers of `layers` as text: charge, then multiplicity, layer by
      layer. */
  function Fields(layers: seq<Layer>): (r: seq<string>)
    ensures |r| == 2 * |layers|
  {
    if layers == [] then []
    else [IntToString(layers[0].charge), IntToString(layers[0].multiplicity)] + Fields(layers[1..])
  }

  lemma {:induction false} FieldsAt(layers: seq<Layer>, k: nat)
    requires k < |layers|
    ensures Fields(layers)[2 * k] == IntToString(layers[k].charge)
    ensures Fields(layers)[2 * k + 1] == IntToString(layers[k].multiplicity)
    decreases k
  {
    var head := [IntToString(layers[0].charge), IntToString(layers[0].multiplicity)];
    assert Fields(layers) == head + Fields(layers[1..]);
    if k > 0 {
      FieldsAt(layers[1..], k - 1);
      AfterHead(head, Fields(layers[1..]), 2 * (k - 1));
      AfterHead(head, Fields(layers[1..]), 2 * (k - 1) + 1);
    }
  }

  lemma AfterHead<T>(head: seq<T>, rest: seq<T>, j: nat)
    requires |head| == 2 && j < |rest|
    ensures (head + rest)[j + 2] == rest[j]
  {
  }

  /** A printed number holds no space. */
  lemma NumberHasNoSpace(n: int)
    ensures ' ' !in IntToString(n)
  {
    var digits := NatToString(if n < 0 then -n else n);
    assert forall i :: 0 <= i < |digits| ==> IsDigit(digits[i]);
    if n < 0 {
      assert IntToString(n) == "-" + digits;
    }
  }

  /** Split at spaces, the pairs give the numbers one by one and a last
      empty piece after the final space. */
  lemma {:induction false} PairsSplit(layers: seq<Layer>)
    ensures Split(Pairs(layers), ' ') == Fields(layers) + [""]
    decreases |layers|
  {
    if layers != [] {
      var c := IntToString(layers[0].charge);
      var m := IntToString(layers[0].multiplicity);
      NumberHasNoSpace(layers[0].charge);
      NumberHasNoSpace(layers[0].multiplicity);
      SplitPair(c, m, Pairs(layers[1..]));
      PairsSplit(layers[1..]);
    }
  }

  /** One pair splits into its two numbers ahead of the rest. */
  lemma SplitPair(c: string, m: string, rest: string)
    requires ' ' !in c && ' ' !in m
    ensures Split(c + " " + m + " " + rest, ' ') == [c, m] + Split(rest, ' ')
  {
    assert c + " " + m + " " + rest == c + [' '] + (m + [' '] + rest);
    SplitCons(c, ' ', m + [' '] + rest);
    SplitCons(m, ' ', rest);
  }

  /** Reading the line back gives every layer's charge and multiplicity,
      in order, as long as they fit 32 bits. */
  lemma ChargeMultiplicityRoundTrip(layers: seq<Layer>)
    requires forall k :: 0 <= k < |layers| ==>
      Int32Min <= layers[k].charge <= Int32Max && Int32Min <= layers[k].multiplicity <= Int32Max
    ensures var fields := Split(Pairs(layers), ' ');
      && |fields| == 2 * |layers| + 1
      && forall k :: 0 <= k < |layers| ==>
        TryParseInt(fields[2 * k]) == Some(layers[k].charge)
        && TryParseInt(fields[2 * k + 1]) == Some(layers[k].multiplicity)
  {
    PairsSplit(layers);
    var fields := Split(Pairs(layers), ' ');
    forall k | 0 <= k < |layers|
      ensures TryParseInt(fields[2 * k]) == Some(layers[k].charge)
      ensures TryParseInt(fields[2 * k + 1]) == Some(layers[k].multiplicity)
    {
      FieldsAt(layers, k);
      assert fields[2 * k] == Fields(layers)[2 * k];
      assert fields[2 * k + 1] == Fields(layers)[2 * k + 1];
      TryParseIntToString(layers[k].charge);
      TryParseIntToString(layers[k].multiplicity);
    }
  }

  // ---------------------------------------------------------------------
  // The geometry keyword

  /** The geometry options after writing: "connectivity" is added when
      connectivity is written and it is not there yet. */
  function GeomOptionsFor(geomOptions: seq<string>, writeConnectivity: bool): (r: seq<string>)
    ensures writeConnectivity ==> "connectivity" in r
    ensures |r| >= |geomOptions| && r[..|geomOptions|] == geomOptions
    ensures forall x :: x in r && x != "connectivity" ==> x in geomOptions
  {
    if writeConnectivity && "connectivity" !in geomOptions then geomOptions + ["connectivity"] else geomOptions
  }

  /** Adding "connectivity" a second time changes nothing. */
  lemma GeomOptionsIdempotent(geomOptions: seq<string>, writeConnectivity: bool)
    ensures GeomOptionsFor(GeomOptionsFor(geomOptions, writeConnectivity), writeConnectivity)
      == GeomOptionsFor(geomOptions, writeConnectivity)
  {
  }

  /** The geometry part of the keyword line: when connectivity is written
      "connectivity" joins the calculator's geometry options, and a
      non-empty option list is written as the "geom" keyword item and a
      space. */
  method GeomKeyword(gc: GaussianCalculator, writeConnectivity: bool) returns (part: string)
    modifies gc
    ensures gc.geomOptions == GeomOptionsFor(old(gc.geomOptions), writeConnectivity)
    ensures part == if gc.geomOptions == [] then "" else GetKeywordItem("geom", Some(gc.geomOptions)) + " "
    ensures writeConnectivity && CommaFree(gc.geomOptions) ==>
      part != "" && "connectivity" in ParseKeywordItem(part[..|part| - 1]).1
    ensures unchanged(gc`layerDict, gc`oniomOptions, gc`guessOptions, gc`additionalKeywords, gc`title)
  {
    if writeConnectivity && "connectivity" !in gc.geomOptions {
      gc.geomOptions := gc.geomOptions + ["connectivity"];
    }
    if |gc.geomOptions| != 0 {
      var item := GetKeywordItem("geom", Some(gc.geomOptions));
      part := item + " ";
      assert part[..|part| - 1] == item;
      if CommaFree(gc.geomOptions) {
        KeywordItemRoundTrip("geom", Some(gc.geomOptions));
      }
    } else {
      part := "";
    }
  }

  // ---------------------------------------------------------------------
  // Atom numbering

  /** The atoms of one residue, in the order of its names. */
  function AtomsOf(residueID: ResidueIDs.ResidueID, pdbIDs: seq<PDBID>): (r: seq<AtomID>)
    ensures |r| == |pdbIDs|
    ensures forall k :: 0 <= k < |r| ==> r[k] == AtomID(residueID, pdbIDs[k])
  {
    if pdbIDs == [] then []
    else AtomsOf(residueID, pdbIDs[..|pdbIDs| - 1]) + [AtomID(residueID, pdbIDs[|pdbIDs| - 1])]
  }

  /** The atoms of the residues, residue by residue. */
  function Enumerated(residueIDs: seq<ResidueIDs.ResidueID>, pdbIDs: map<ResidueIDs.ResidueID, seq<PDBID>>): seq<AtomID>
    requires forall k :: 0 <= k < |residueIDs| ==> residueIDs[k] in pdbIDs
  {
    if residueIDs == [] then []
    else
      var n := |residueIDs| - 1;
      Enumerated(residueIDs[..n], pdbIDs) + AtomsOf(residueIDs[n], pdbIDs[residueIDs[n]])
  }

  /** Every enumerated atom belongs to one of the residues. */
  lemma {:induction false} EnumeratedResidues(residueIDs: seq<ResidueIDs.ResidueID>,
                                              pdbIDs: map<ResidueIDs.ResidueID, seq<PDBID>>)
    requires forall k :: 0 <= k < |residueIDs| ==> residueIDs[k] in pdbIDs
    ensures forall a :: a in Enumerated(residueIDs, pdbIDs) ==> a.residueID in residueIDs
    decreases |residueIDs|
  {
    if residueIDs != [] {
      var n := |residueIDs| - 1;
      EnumeratedResidues(residueIDs[..n], pdbIDs);
      forall a | a in Enumerated(residueIDs, pdbIDs)
        ensures a.residueID in residueIDs
      {
        if a in Enumerated(residueIDs[..n], pdbIDs) {
          assert a.residueID in residueIDs[..n];
        } else {
          assert a.residueID == residueIDs[n];
        }
      }
    }
  }

  /** Atoms numbered from 1 in the order given, a later entry winning. */
  function Numbering(order: seq<AtomID>): map<AtomID, int> {
    if order == [] then map[]
    else Numbering(order[..|order| - 1])[order[|order| - 1] := |order|]
  }

  lemma NumberingSnoc(order: seq<AtomID>, a: AtomID)
    ensures Numbering(order + [a]) == Numbering(order)[a := |order| + 1]
  {
    assert (order + [a])[..|order|] == order;
  }

  predicate NoRepeats(order: seq<AtomID>) {
    forall i, j :: 0 <= i < j < |order| ==> order[i] != order[j]
  }

  /** Exactly the listed atoms are numbered. */
  lemma {:induction false} NumberingKeys(order: seq<AtomID>)
    ensures forall a :: a in Numbering(order) <==> a in order
    decreases |order|
  {
    if order != [] {
      var n := |order| - 1;
      NumberingKeys(order[..n]);
      assert order == order[..n] + [order[n]];
    }
  }

  /** Without repeats, the atom at position k is numbered k + 1. */
  lemma {:induction false} NumberingAt(order: seq<AtomID>, k: nat)
    requires NoRepeats(order) && k < |order|
    ensures order[k] in Numbering(order) && Numbering(order)[order[k]] == k + 1
    decreases |order|
  {
    var n := |order| - 1;
    if k < n {
      assert order[..n][k] == order[k];
      NumberingAt(order[..n], k);
    }
  }

  /** The enumeration grows residue by residue. */
  lemma EnumeratedSnoc(residueIDs: seq<ResidueIDs.ResidueID>, pdbIDs: map<ResidueIDs.ResidueID, seq<PDBID>>, i: nat)
    requires i < |residueIDs|
    requires forall k :: 0 <= k < |residueIDs| ==> residueIDs[k] in pdbIDs
    ensures Enumerated(residueIDs[..i + 1], pdbIDs)
      == Enumerated(residueIDs[..i], pdbIDs) + AtomsOf(residueIDs[i], pdbIDs[residueIDs[i]])
  {
    assert residueIDs[..i + 1][..i] == residueIDs[..i];
  }

  /** The names of one residue, each given the next number. */
  method NumberResidue(atomMap: map<AtomID, int>, atomNum: int, residueID: ResidueIDs.ResidueID,
                       names: seq<PDBID>, ghost before: seq<AtomID>)
    returns (atomMap': map<AtomID, int>, atomNum': int)
    requires atomMap == Numbering(before) && atomNum == |before| + 1
    ensures atomMap' == Numbering(before + AtomsOf(residueID, names))
    ensures atomNum' == atomNum + |names|
  {
    atomMap', atomNum' := atomMap, atomNum;
    assert before + AtomsOf(residueID, names[..0]) == before;
    for j := 0 to |names|
      invariant atomMap' == Numbering(before + AtomsOf(residueID, names[..j]))
      invariant atomNum' == |before| + j + 1
    {
      ghost var now := before + AtomsOf(residueID, names[..j]);
      var atomID := AtomID(residueID, names[j]);
      assert names[..j + 1][..j] == names[..j];
      assert before + AtomsOf(residueID, names[..j + 1]) == now + [atomID];
      NumberingSnoc(now, atomID);
      atomMap' := atomMap'[atomID := atomNum'];
      atomNum' := atomNum' + 1;
    }
    assert names[..|names|] == names;
  }

  /** The atom map of the input writer: residue by residue, name by name,
      each atom gets the next number, from 1. */
  method NumberAtoms(residueIDs: seq<ResidueIDs.ResidueID>, pdbIDs: map<ResidueIDs.ResidueID, seq<PDBID>>)
    returns (atomMap: map<AtomID, int>)
    requires forall k :: 0 <= k < |residueIDs| ==> residueIDs[k] in pdbIDs
    ensures atomMap == Numbering(Enumerated(residueIDs, pdbIDs))
  {
    atomMap := map[];
    var atomNum := 1;
    for i := 0 to |residueIDs|
      invariant atomMap == Numbering(Enumerated(residueIDs[..i], pdbIDs))
      invariant atomNum == |Enumerated(residueIDs[..i], pdbIDs)| + 1
    {
      var residueID := residueIDs[i];
      EnumeratedSnoc(residueIDs, pdbIDs, i);
      atomMap, atomNum := NumberResidue(atomMap, atomNum, residueID, pdbIDs[residueID],
                                        Enumerated(residueIDs[..i], pdbIDs));
    }
    assert residueIDs[..|residueIDs|] == residueIDs;
  }

  /** Residue IDs in ascending order, as sorting the residue table's keys
      gives them. */
  predicate AscendingResidues(residueIDs: seq<ResidueIDs.ResidueID>) {
    forall i, j :: 0 <= i < j < |residueIDs| ==> ResidueIDs.Compare(residueIDs[i], residueIDs[j]) < 0
  }

  /** Names in ascending order, as sorting a residue's names gives them. */
  predicate AscendingNames(pdbIDs: seq<PDBID>) {
    forall i, j :: 0 <= i < j < |pdbIDs| ==> Compare(pdbIDs[i], pdbIDs[j]) < 0
  }

  predicate AscendingAtoms(order: seq<AtomID>) {
    forall i, j :: 0 <= i < j < |order| ==> CompareAtomIDs(order[i], order[j]) < 0
  }

  /** The atoms of one residue with ascending names are ascending. */
  lemma AtomsOfAscending(residueID: ResidueIDs.ResidueID, names: seq<PDBID>)
    requires AscendingNames(names)
    ensures AscendingAtoms(AtomsOf(residueID, names))
  {
    ResidueIDs.CompareZeroIffEqual(residueID, residueID);
  }

  /** Ascending atoms followed by ascending atoms of a later residue are
      ascending. */
  lemma AscendingConcat(before: seq<AtomID>, atoms: seq<AtomID>, last: ResidueIDs.ResidueID)
    requires AscendingAtoms(before) && AscendingAtoms(atoms)
    requires forall a :: a in before ==> ResidueIDs.Compare(a.residueID, last) < 0
    requires forall k :: 0 <= k < |atoms| ==> atoms[k].residueID == last
    ensures AscendingAtoms(before + atoms)
  {
    var order := before + atoms;
    forall i, j | 0 <= i < j < |order|
      ensures CompareAtomIDs(order[i], order[j]) < 0
    {
      if j < |before| {
        assert order[i] == before[i] && order[j] == before[j];
      } else if i >= |before| {
        assert order[i] == atoms[i - |before|] && order[j] == atoms[j - |before|];
      } else {
        assert order[i] == before[i] && order[j] == atoms[j - |before|];
        assert before[i] in before;
      }
    }
  }

  /** Ascending residues with ascending names enumerate their atoms in
      ascending order. */
  lemma {:induction false} EnumeratedAscending(residueIDs: seq<ResidueIDs.ResidueID>,
                                               pdbIDs: map<ResidueIDs.ResidueID, seq<PDBID>>)
    requires forall k :: 0 <= k < |residueIDs| ==> residueIDs[k] in pdbIDs
    requires AscendingResidues(residueIDs)
    requires forall k :: 0 <= k < |residueIDs| ==> AscendingNames(pdbIDs[residueIDs[k]])
    ensures AscendingAtoms(Enumerated(residueIDs, pdbIDs))
    decreases |residueIDs|
  {
    if residueIDs != [] {
      var n := |residueIDs| - 1;
      var last := residueIDs[n];
      var before := Enumerated(residueIDs[..n], pdbIDs);
      EnumeratedAscending(residueIDs[..n], pdbIDs);
      EnumeratedResidues(residueIDs[..n], pdbIDs);
      forall a | a in before
        ensures ResidueIDs.Compare(a.residueID, last) < 0
      {
        var p :| 0 <= p < n && residueIDs[..n][p] == a.residueID;
        assert residueIDs[p] == a.residueID;
      }
      AtomsOfAscending(last, pdbIDs[last]);
      AscendingConcat(before, AtomsOf(last, pdbIDs[last]), last);
    }
  }

  /** For ascending residues and names, the atom map numbers exactly the
      atoms of the residues, from 1 to their count, and numbers one atom
      below another exactly when it sorts before it. */
  lemma AtomMapOrder(residueIDs: seq<ResidueIDs.ResidueID>, pdbIDs: map<ResidueIDs.ResidueID, seq<PDBID>>)
    requires forall k :: 0 <= k < |residueIDs| ==> residueIDs[k] in pdbIDs
    requires AscendingResidues(residueIDs)
    requires forall k :: 0 <= k < |residueIDs| ==> AscendingNames(pdbIDs[residueIDs[k]])
    ensures var order := Enumerated(residueIDs, pdbIDs);
      var atomMap := Numbering(order);
      && (forall a :: a in atomMap <==> a in order)
      && (forall a :: a in atomMap ==> 1 <= atomMap[a] <= |order|)
      && (forall a, b :: a in atomMap && b in atomMap ==> (atomMap[a] < atomMap[b] <==> CompareAtomIDs(a, b) < 0))
  {
    var order := Enumerated(residueIDs, pdbIDs);
    EnumeratedAscending(residueIDs, pdbIDs);
    NumberingKeys(order);
    var atomMap := Numbering(order);
    assert NoRepeats(order) by {
      forall i, j | 0 <= i < j < |order|
        ensures order[i] != order[j]
      {
        CompareAtomIDsZeroIffEqual(order[i], order[i]);
      }
    }
    forall a | a in atomMap
      ensures 1 <= atomMap[a] <= |order|
    {
      var i :| 0 <= i < |order| && order[i] == a;
      NumberingAt(order, i);
    }
    forall a, b | a in atomMap && b in atomMap
      ensures atomMap[a] < atomMap[b] <==> CompareAtomIDs(a, b) < 0
    {
      var i :| 0 <= i < |order| && order[i] == a;
      var j :| 0 <= j < |order| && order[j] == b;
      NumberingAt(order, i);
      NumberingAt(order, j);
      if j < i {
        CompareAtomIDsAntisymmetric(a, b);
      } else if i == j {
        CompareAtomIDsZeroIffEqual(a, b);
      }
    }
  }
}
