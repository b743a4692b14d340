/** The static lookup helpers of the global data store: element-pair hashing,
    bond-order thresholds, the amber type of an added hydrogen, terminal-state
    detection and the per-element signatures used to recognise residues. */
module Data {
  import opened Wrappers
  import opened Text
  import opened ResidueIDs
  import opened Atoms

  const F: Element := 9
  const Cl: Element := 17

  /** Number of chemical elements: the enumeration stops at Og (118). */
  const ElementCount: nat := 119

  const CTER_ID := PDBID(O, "XT", 0)
  const NTER_ID := PDBID(N, "", 2)

  const ElectronWithdrawingElements: seq<Element> := [N, O, F, S, Cl]

  // ---------------------------------------------------------------------
  // Element-pair hashing

  const UIntModulus: nat := 0x1_0000_0000

  /** The key of an ordered element pair: e0 * 255 + e1, as an unsigned
      32-bit value. */
  function GetHash(e0: Element, e1: Element): (h: nat)
    ensures h < UIntModulus
  {
    (e0 * 255 + e1) % UIntModulus
  }

  /** Recovers the element pair from a key. */
  function ElementsOfHash(h: nat): (Element, Element) {
    (h / 255, h % 255)
  }

  /** Every pair of elements with an index below 255 — all of them — is
      recovered from its key, so distinct pairs never share a key. */
  lemma HashRoundTrip(e0: Element, e1: Element)
    requires e0 < ElementCount && e1 < ElementCount
    ensures ElementsOfHash(GetHash(e0, e1)) == (e0, e1)
  {
    assert e0 * 255 + e1 < UIntModulus;
    DivideBack(e0, e1);
  }

  lemma DivideBack(q: nat, r: nat)
    requires r < 255
    ensures (q * 255 + r) / 255 == q && (q * 255 + r) % 255 == r
  {
  }

  lemma HashInjective(a0: Element, a1: Element, b0: Element, b1: Element)
    requires a0 < ElementCount && a1 < ElementCount && b0 < ElementCount && b1 < ElementCount
    requires GetHash(a0, a1) == GetHash(b0, b1)
    ensures a0 == b0 && a1 == b1
  {
    HashRoundTrip(a0, a1);
    HashRoundTrip(b0, b1);
  }

  // ---------------------------------------------------------------------
  // Bond-distance table

  /** The squared bond-distance thresholds per element-pair key: four
      values, for single, aromatic, double and triple bonds. */
  type DistanceTable = map<nat, seq<real>>

  predicate WellFormed(table: DistanceTable) {
    forall h :: h in table ==> |table[h]| == 4
  }

  /** The table holds the same thresholds under both orders of every pair. */
  predicate Symmetric(table: DistanceTable) {
    forall e0: Element, e1: Element :: e0 < ElementCount && e1 < ElementCount ==>
      (GetHash(e0, e1) in table <==> GetHash(e1, e0) in table)
      && (GetHash(e0, e1) in table ==> table[GetHash(e0, e1)] == table[GetHash(e1, e0)])
  }

  /** Records the thresholds of one pair under its forward and backward keys,
      as the loader does for each line of the distance file. */
  function StoreDistances(table: DistanceTable, e0: Element, e1: Element, distances: seq<real>): (t: DistanceTable)
    ensures GetHash(e0, e1) in t && GetHash(e1, e0) in t
    ensures t[GetHash(e0, e1)] == distances && t[GetHash(e1, e0)] == distances
    ensures forall h :: h != GetHash(e0, e1) && h != GetHash(e1, e0) ==>
      (h in t <==> h in table) && (h in table ==> t[h] == table[h])
  {
    table[GetHash(e0, e1) := distances][GetHash(e1, e0) := distances]
  }

  /** Storing a pair keeps the table symmetric and well formed. */
  lemma {:induction false} StoreKeepsSymmetric(table: DistanceTable, e0: Element, e1: Element, distances: seq<real>)
    requires Symmetric(table) && WellFormed(table) && |distances| == 4
    requires e0 < ElementCount && e1 < ElementCount
    ensures Symmetric(StoreDistances(table, e0, e1, distances))
    ensures WellFormed(StoreDistances(table, e0, e1, distances))
  {
    var t := StoreDistances(table, e0, e1, distances);
    forall a: Element, b: Element | a < ElementCount && b < ElementCount
      ensures GetHash(a, b) in t <==> GetHash(b, a) in t
      ensures GetHash(a, b) in t ==> t[GetHash(a, b)] == t[GetHash(b, a)]
    {
      var stored := {GetHash(e0, e1), GetHash(e1, e0)};
      if GetHash(a, b) in stored || GetHash(b, a) in stored {
        if GetHash(a, b) == GetHash(e0, e1) {
          HashInjective(a, b, e0, e1);
        } else if GetHash(a, b) == GetHash(e1, e0) {
          HashInjective(a, b, e1, e0);
        } else if GetHash(b, a) == GetHash(e0, e1) {
          HashInjective(b, a, e0, e1);
        } else {
          HashInjective(b, a, e1, e0);
        }
      }
    }
  }

  /** The bond type whose squared-distance band holds `distanceSquared`:
      NONE for a pair the table does not know or a distance beyond the
      single-bond threshold, otherwise the first band it falls in. */
  function GetBondOrderDistanceSquared(table: DistanceTable, e0: Element, e1: Element, distanceSquared: real): (bt: BondType)
    requires WellFormed(table)
    ensures GetHash(e0, e1) !in table ==> bt == NONE
  {
    if GetHash(e0, e1) !in table then NONE
    else
      var t := table[GetHash(e0, e1)];
      if distanceSquared > t[0] then NONE
      else if distanceSquared > t[1] then SINGLE
      else if distanceSquared > t[2] then AROMATIC
      else if distanceSquared > t[3] then DOUBLE
      else TRIPLE
  }

  function Order(bt: BondType): nat {
    match bt
    case NONE => 0
    case SINGLE => 1
    case AROMATIC => 2
    case DOUBLE => 3
    case TRIPLE => 4
  }

  predicate Descending(t: seq<real>) {
    |t| == 4 && t[0] >= t[1] >= t[2] >= t[3]
  }

  /** With descending thresholds, a shorter distance never gives a lower
      bond order, a known pair is bonded exactly within the single-bond
      threshold, and triple exactly within the last one. */
  lemma BondOrderMonotonic(table: DistanceTable, e0: Element, e1: Element, d: real, d': real)
    requires WellFormed(table) && d <= d'
    requires GetHash(e0, e1) in table ==> Descending(table[GetHash(e0, e1)])
    ensures Order(GetBondOrderDistanceSquared(table, e0, e1, d')) <= Order(GetBondOrderDistanceSquared(table, e0, e1, d))
    ensures GetHash(e0, e1) in table ==>
      (GetBondOrderDistanceSquared(table, e0, e1, d) != NONE <==> d <= table[GetHash(e0, e1)][0])
    ensures GetHash(e0, e1) in table ==>
      (GetBondOrderDistanceSquared(table, e0, e1, d) == TRIPLE <==> d <= table[GetHash(e0, e1)][3])
  {
  }

  /** On a symmetric table the bond order does not depend on the order of
      the two elements. */
  lemma BondOrderSymmetric(table: DistanceTable, e0: Element, e1: Element, d: real)
    requires WellFormed(table) && Symmetric(table)
    requires e0 < ElementCount && e1 < ElementCount
    ensures GetBondOrderDistanceSquared(table, e0, e1, d) == GetBondOrderDistanceSquared(table, e1, e0, d)
  {
  }

  // ---------------------------------------------------------------------
  // Amber type of a hydrogen added to a host atom

  /** The neighbours whose element withdraws electrons (N, O, F, S, Cl). */
  function Withdrawing(neighbours: set<AtomID>): (w: set<AtomID>)
    ensures w <= neighbours
    ensures forall id :: id in w <==> id in neighbours && id.pdbID.element in ElectronWithdrawingElements
  {
    set id | id in neighbours && id.pdbID.element in ElectronWithdrawingElements
  }

  /** The hydrogen type chosen from a carbon host's amber type and a count
      of its neighbours: an aromatic (CA) host gives HA, H4 or H5 for up to
      two, an aliphatic host H1, H2 or H3 for one to three, and every other
      count falls back to HC. */
  function CarbonLinkType(hostAmber: string, count: nat): (amber: string)
    ensures amber == "HC" <==> (if hostAmber == "CA" then count > 2 else count == 0 || count > 3)
    ensures hostAmber == "CA" ==> amber in {"HA", "H4", "H5", "HC"}
    ensures hostAmber != "CA" ==> amber in {"HC", "H1", "H2", "H3"}
  {
    if hostAmber == "CA" then
      if count == 0 then "HA" else if count == 1 then "H4" else if count == 2 then "H5" else "HC"
    else
      if count == 1 then "H1" else if count == 2 then "H2" else if count == 3 then "H3" else "HC"
  }

  /** The amber type of a hydrogen bonded to a host of element `hostElement`
      with amber type `hostAmber` and the given neighbours: on carbon it
      depends on how many neighbours withdraw electrons; on oxygen it is HO,
      on sulphur HS, elsewhere H. */
  function GetLinkType(hostElement: Element, hostAmber: string, neighbours: set<AtomID>): (amber: string)
    ensures hostElement == O ==> amber == "HO"
    ensures hostElement == S ==> amber == "HS"
    ensures hostElement != C && hostElement != O && hostElement != S ==> amber == "H"
  {
    if hostElement == C then CarbonLinkType(hostAmber, |Withdrawing(neighbours)|)
    else if hostElement == O then "HO"
    else if hostElement == S then "HS"
    else "H"
  }

  /** On carbon, neighbours that do not withdraw electrons never change the
      hydrogen type. */
  lemma LinkTypeByWithdrawing(hostAmber: string, neighbours: set<AtomID>, others: set<AtomID>)
    requires forall id :: id in others ==> id.pdbID.element !in ElectronWithdrawingElements
    ensures GetLinkType(C, hostAmber, neighbours + others) == GetLinkType(C, hostAmber, neighbours)
  {
    assert Withdrawing(neighbours + others) == Withdrawing(neighbours);
  }

  /** Every aliphatic count from 1 to 3 has its own hydrogen type. */
  lemma AliphaticTypesDistinct(hostAmber: string)
    requires hostAmber != "CA"
    ensures CarbonLinkType(hostAmber, 0) == "HC"
    ensures CarbonLinkType(hostAmber, 1) == "H1"
    ensures CarbonLinkType(hostAmber, 2) == "H2"
    ensures CarbonLinkType(hostAmber, 3) == "H3"
  {
  }

  /** The carbon branch as written: the count is taken over all neighbours,
      whatever their element, and the third aliphatic test repeats the
      second, so H3 is never chosen. */
  function GetLinkTypeAsWritten(hostElement: Element, hostAmber: string, neighbours: set<AtomID>): (amber: string)
    ensures hostElement == C && hostAmber != "CA" ==> amber != "H3"
  {
    if hostElement == C then
      var count := |neighbours|;
      if hostAmber == "CA" then
        if count == 0 then "HA" else if count == 1 then "H4" else if count == 2 then "H5" else "HC"
      else
        if count == 1 then "H1" else if count == 2 then "H2" else "HC"
    else if hostElement == O then "HO"
    else if hostElement == S then "HS"
    else "H"
  }

  /** An aliphatic carbon bonded to one other carbon gets H1 as written,
      though no neighbour withdraws electrons (the intended type is HC). */
  lemma LinkTypeAsWrittenCountsAll(r: ResidueID)
    ensures GetLinkTypeAsWritten(C, "CT", {AtomID(r, PDBID(C, "B", 0))}) == "H1"
    ensures GetLinkType(C, "CT", {AtomID(r, PDBID(C, "B", 0))}) == "HC"
  {
    assert Withdrawing({AtomID(r, PDBID(C, "B", 0))}) == {};
  }

  // ---------------------------------------------------------------------
  // Terminal state and element counts

  datatype ResidueState = UNKNOWN | STANDARD | NONSTANDARD | C_TERMINAL | N_TERMINAL | HETERO | WATER | CAP | ION

  /** The state given by the first terminal atom among the IDs: C-terminal
      for OXT, N-terminal for H2-style N, standard when there is none. */
  function GetTerminalState(pdbIDs: seq<PDBID>): (state: ResidueState)
    ensures state == C_TERMINAL ==> CTER_ID in pdbIDs
    ensures state == N_TERMINAL ==> NTER_ID in pdbIDs
    ensures state == STANDARD <==> CTER_ID !in pdbIDs && NTER_ID !in pdbIDs
    ensures state in {STANDARD, C_TERMINAL, N_TERMINAL}
  {
    if pdbIDs == [] then STANDARD
    else if pdbIDs[0] == CTER_ID then C_TERMINAL
    else if pdbIDs[0] == NTER_ID then N_TERMINAL
    else GetTerminalState(pdbIDs[1..])
  }

  /** The terminal ID that comes first decides the state. */
  lemma {:induction false} TerminalStateFirstWins(pdbIDs: seq<PDBID>, i: nat)
    requires i < |pdbIDs| && pdbIDs[i] in {CTER_ID, NTER_ID}
    requires forall j :: 0 <= j < i ==> pdbIDs[j] !in {CTER_ID, NTER_ID}
    ensures GetTerminalState(pdbIDs) == (if pdbIDs[i] == CTER_ID then C_TERMINAL else N_TERMINAL)
  {
    if i > 0 {
      assert pdbIDs[0] !in {CTER_ID, NTER_ID};
      TerminalStateFirstWins(pdbIDs[1..], i - 1);
    }
  }

  /** How many of the IDs have element `e`. */
  function CountElement(pdbIDs: seq<PDBID>, e: Element): (n: nat)
    ensures n <= |pdbIDs|
  {
    if pdbIDs == [] then 0
    else CountElement(pdbIDs[..|pdbIDs| - 1], e) + (if pdbIDs[|pdbIDs| - 1].element == e then 1 else 0)
  }

  datatype CNSCount = CNSCount(carbonCount: nat, nitrogenCount: nat, sulfurCount: nat)

  /** Counts carbons, nitrogens and sulphurs in one pass. */
  method CountCNS(pdbIDs: seq<PDBID>) returns (count: CNSCount)
    ensures count.carbonCount == CountElement(pdbIDs, C)
    ensures count.nitrogenCount == CountElement(pdbIDs, N)
    ensures count.sulfurCount == CountElement(pdbIDs, S)
  {
    var c, n, s := 0, 0, 0;
    var i := 0;
    while i < |pdbIDs|
      invariant i <= |pdbIDs|
      invariant c == CountElement(pdbIDs[..i], C)
      invariant n == CountElement(pdbIDs[..i], N)
      invariant s == CountElement(pdbIDs[..i], S)
    {
      assert pdbIDs[..i + 1][..i] == pdbIDs[..i];
      var e := pdbIDs[i].element;
      if e == C {
        c := c + 1;
      } else if e == N {
        n := n + 1;
      } else if e == S {
        s := s + 1;
      }
      i := i + 1;
    }
    assert pdbIDs[..i] == pdbIDs;
    count := CNSCount(c, n, s);
  }

  /** The element counts do not depend on the order of the IDs. */
  lemma CountElementPermutation(a: seq<PDBID>, b: seq<PDBID>, e: Element)
    requires multiset(a) == multiset(b)
    ensures CountElement(a, e) == CountElement(b, e)
  {
    IdentifiersPermutation(a, b, e);
    assert |multiset(IdentifiersOf(a, e))| == |multiset(IdentifiersOf(b, e))|;
  }

  lemma MultisetRemove<T>(b: seq<T>, i: nat)
    requires i < |b|
    ensures multiset(b[..i] + b[i + 1..]) == multiset(b) - multiset{b[i]}
  {
    assert b == b[..i] + [b[i]] + b[i + 1..];
  }

  // ---------------------------------------------------------------------
  // Residue signatures

  predicate Le(a: string, b: string) { CompareOrdinal(a, b) <= 0 }

  predicate SortedStrings(s: seq<string>) {
    forall i, j :: 0 <= i < j < |s| ==> Le(s[i], s[j])
  }

  lemma LeTotal(a: string, b: string)
    ensures Le(a, b) || Le(b, a)
  {
    CompareOrdinalAntisymmetric(a, b);
  }

  lemma LeTransitive(a: string, b: string, c: string)
    requires Le(a, b) && Le(b, c)
    ensures Le(a, c)
  {
    CompareOrdinalZero(a, b);
    CompareOrdinalZero(b, c);
    if CompareOrdinal(a, b) < 0 && CompareOrdinal(b, c) < 0 {
      CompareOrdinalTransitive(a, b, c);
    }
  }

  lemma LeAntisymmetric(a: string, b: string)
    requires Le(a, b) && Le(b, a)
    ensures a == b
  {
    CompareOrdinalAntisymmetric(a, b);
    CompareOrdinalZero(a, b);
  }

  /** Inserts `x` into a sorted list before the first element above it. */
  function Insert(x: string, s: seq<string>): (r: seq<string>)
    requires SortedStrings(s)
    ensures multiset(r) == multiset(s) + multiset{x}
    ensures SortedStrings(r)
  {
    if s == [] then [x]
    else if Le(x, s[0]) then
      LeBeforeAll(x, s);
      [x] + s
    else
      var t := Insert(x, s[1..]);
      assert s == [s[0]] + s[1..];
      HeadBeforeInserted(x, s, t);
      [s[0]] + t
  }

  /** The head of a sorted list stays first when a later element is
      inserted into its tail. */
  lemma HeadBeforeInserted(x: string, s: seq<string>, t: seq<string>)
    requires SortedStrings(s) && s != [] && !Le(x, s[0])
    requires SortedStrings(t) && multiset(t) == multiset(s[1..]) + multiset{x}
    ensures SortedStrings([s[0]] + t)
  {
    LeTotal(x, s[0]);
    forall z | z in multiset(t)
      ensures Le(s[0], z)
    {
      if z != x {
        assert z in s[1..];
        var i :| 0 <= i < |s[1..]| && s[1..][i] == z;
        assert s[1..][i] == s[i + 1];
      }
    }
    FirstBeforeAll(s[0], t);
  }

  lemma LeBeforeAll(x: string, s: seq<string>)
    requires SortedStrings(s) && s != [] && Le(x, s[0])
    ensures SortedStrings([x] + s)
  {
    forall j | 1 <= j < |s| + 1
      ensures Le(([x] + s)[0], ([x] + s)[j])
    {
      if j > 1 {
        LeTransitive(x, s[0], s[j - 1]);
      }
    }
  }

  lemma FirstBeforeAll(y: string, t: seq<string>)
    requires SortedStrings(t)
    requires forall z :: z in multiset(t) ==> Le(y, z)
    ensures SortedStrings([y] + t)
  {
    forall j | 1 <= j < |t| + 1
      ensures Le(([y] + t)[0], ([y] + t)[j])
    {
      assert t[j - 1] in multiset(t);
    }
  }

  /** Sorts a list of identifiers by ordinal comparison. */
  function Sort(s: seq<string>): (r: seq<string>)
    ensures multiset(r) == multiset(s)
    ensures SortedStrings(r)
  {
    if s == [] then []
    else
      assert s == s[..|s| - 1] + [s[|s| - 1]];
      Insert(s[|s| - 1], Sort(s[..|s| - 1]))
  }

  /** A sorted list is determined by its elements. */
  lemma {:induction false} SortedUnique(a: seq<string>, b: seq<string>)
    requires SortedStrings(a) && SortedStrings(b) && multiset(a) == multiset(b)
    ensures a == b
    decreases |a|
  {
    if a != [] {
      assert |b| == |multiset(b)| == |multiset(a)| == |a|;
      assert a[0] in multiset(b) && b[0] in multiset(a);
      HeadIsLeast(a, b[0]);
      HeadIsLeast(b, a[0]);
      LeAntisymmetric(a[0], b[0]);
      TailsSameElements(a, b);
      SortedTail(a);
      SortedTail(b);
      SortedUnique(a[1..], b[1..]);
      SameHeadAndTail(a, b);
    }
  }

  lemma TailsSameElements<T>(a: seq<T>, b: seq<T>)
    requires a != [] && b != [] && a[0] == b[0] && multiset(a) == multiset(b)
    ensures multiset(a[1..]) == multiset(b[1..])
  {
    assert a == [a[0]] + a[1..] && b == [b[0]] + b[1..];
    var ta, tb := multiset(a[1..]), multiset(b[1..]);
    assert multiset(a) == multiset{a[0]} + ta && multiset(b) == multiset{a[0]} + tb;
    assert forall y :: ta[y] == multiset(a)[y] - (if y == a[0] then 1 else 0) == tb[y];
  }

  lemma SameHeadAndTail<T>(a: seq<T>, b: seq<T>)
    requires a != [] && b != [] && a[0] == b[0] && a[1..] == b[1..]
    ensures a == b
  {
    assert a == [a[0]] + a[1..] && b == [b[0]] + b[1..];
  }

  lemma SortedTail(a: seq<string>)
    requires SortedStrings(a) && a != []
    ensures SortedStrings(a[1..])
  {
    forall i, j | 0 <= i < j < |a| - 1
      ensures Le(a[1..][i], a[1..][j])
    {
      assert Le(a[i + 1], a[j + 1]);
    }
  }

  lemma HeadIsLeast(a: seq<string>, x: string)
    requires SortedStrings(a) && x in multiset(a)
    ensures Le(a[0], x)
  {
    var i :| 0 <= i < |a| && a[i] == x;
    if i == 0 {
      CompareOrdinalZero(x, x);
    }
  }

  /** The identifiers of the IDs with element `e`, in input order. */
  function IdentifiersOf(pdbIDs: seq<PDBID>, e: Element): (ids: seq<string>)
    ensures |ids| == CountElement(pdbIDs, e)
  {
    if pdbIDs == [] then []
    else
      var p := pdbIDs[|pdbIDs| - 1];
      IdentifiersOf(pdbIDs[..|pdbIDs| - 1], e) + (if p.element == e then [p.identifier] else [])
  }

  lemma {:induction false} IdentifiersSplit(a: seq<PDBID>, b: seq<PDBID>, e: Element)
    ensures IdentifiersOf(a + b, e) == IdentifiersOf(a, e) + IdentifiersOf(b, e)
    decreases |b|
  {
    if b == [] {
      assert a + b == a;
    } else {
      assert (a + b)[..|a + b| - 1] == a + b[..|b| - 1];
      IdentifiersSplit(a, b[..|b| - 1], e);
    }
  }

  /** The identifiers collected per element depend only on which IDs are
      given, not on their order. */
  lemma {:induction false} IdentifiersPermutation(a: seq<PDBID>, b: seq<PDBID>, e: Element)
    requires multiset(a) == multiset(b)
    ensures multiset(IdentifiersOf(a, e)) == multiset(IdentifiersOf(b, e))
    decreases |a|
  {
    if a != [] {
      var x := a[|a| - 1];
      assert x in multiset(b);
      var i :| 0 <= i < |b| && b[i] == x;
      var a', b' := a[..|a| - 1], b[..i] + b[i + 1..];
      LastRemoved(a, b, i);
      IdentifiersPermutation(a', b', e);
      IdentifiersRemoved(b, i, e);
      SingleIdentifier(x, e);
    }
  }

  lemma LastRemoved<T>(a: seq<T>, b: seq<T>, i: nat)
    requires a != [] && i < |b| && b[i] == a[|a| - 1] && multiset(a) == multiset(b)
    ensures multiset(a[..|a| - 1]) == multiset(b[..i] + b[i + 1..])
  {
    MultisetRemove(b, i);
    MultisetRemove(a, |a| - 1);
    assert a[..|a| - 1] + a[|a|..] == a[..|a| - 1];
  }

  lemma SingleIdentifier(x: PDBID, e: Element)
    ensures IdentifiersOf([x], e) == if x.element == e then [x.identifier] else []
  {
    assert [x][..0] == [];
  }

  /** Taking out the ID at `i` takes out its identifier, if any. */
  lemma IdentifiersRemoved(b: seq<PDBID>, i: nat, e: Element)
    requires i < |b|
    ensures multiset(IdentifiersOf(b, e))
      == multiset(IdentifiersOf(b[..i] + b[i + 1..], e)) + multiset(IdentifiersOf([b[i]], e))
  {
    assert b == b[..i] + ([b[i]] + b[i + 1..]);
    IdentifiersSplit(b[..i], [b[i]] + b[i + 1..], e);
    IdentifiersSplit([b[i]], b[i + 1..], e);
    IdentifiersSplit(b[..i], b[i + 1..], e);
  }

  function Concat(parts: seq<string>): (s: string)
    ensures parts == [] ==> s == ""
  {
    if parts == [] then "" else Concat(parts[..|parts| - 1]) + parts[|parts| - 1]
  }

  datatype ResidueSignature = ResidueSignature(heavySignature: string, hydrogenSignature: string)

  /** The signature of a set of atom IDs: the sorted hydrogen identifiers
      joined, and the sorted carbon, nitrogen, oxygen and sulphur
      identifiers joined in that order. */
  function SignatureOf(pdbIDs: seq<PDBID>): ResidueSignature {
    ResidueSignature(
      Concat(Sort(IdentifiersOf(pdbIDs, C)) + Sort(IdentifiersOf(pdbIDs, N))
        + Sort(IdentifiersOf(pdbIDs, O)) + Sort(IdentifiersOf(pdbIDs, S))),
      Concat(Sort(IdentifiersOf(pdbIDs, H))))
  }

  /** Sorting after collecting gives the same list for any order of input. */
  lemma SortedIdentifiersPermutation(a: seq<PDBID>, b: seq<PDBID>, e: Element)
    requires multiset(a) == multiset(b)
    ensures Sort(IdentifiersOf(a, e)) == Sort(IdentifiersOf(b, e))
  {
    IdentifiersPermutation(a, b, e);
    SortedUnique(Sort(IdentifiersOf(a, e)), Sort(IdentifiersOf(b, e)));
  }

  /** A residue signature does not depend on the order of the atom IDs. */
  lemma SignatureOrderIndependent(a: seq<PDBID>, b: seq<PDBID>)
    requires multiset(a) == multiset(b)
    ensures SignatureOf(a) == SignatureOf(b)
  {
    SortedIdentifiersPermutation(a, b, C);
    SortedIdentifiersPermutation(a, b, N);
    SortedIdentifiersPermutation(a, b, O);
    SortedIdentifiersPermutation(a, b, S);
    SortedIdentifiersPermutation(a, b, H);
  }

  /** Builds a signature as the constructor does: one pass filling the five
      per-element lists, then sorting each and joining them. */
  method ComputeSignature(pdbIDs: seq<PDBID>) returns (sig: ResidueSignature)
    ensures sig == SignatureOf(pdbIDs)
  {
    var cList, nList, oList, sList, hList := [], [], [], [], [];
    var i := 0;
    while i < |pdbIDs|
      invariant i <= |pdbIDs|
      invariant cList == IdentifiersOf(pdbIDs[..i], C)
      invariant nList == IdentifiersOf(pdbIDs[..i], N)
      invariant oList == IdentifiersOf(pdbIDs[..i], O)
      invariant sList == IdentifiersOf(pdbIDs[..i], S)
      invariant hList == IdentifiersOf(pdbIDs[..i], H)
    {
      assert pdbIDs[..i + 1][..i] == pdbIDs[..i];
      var p := pdbIDs[i];
      if p.element == C {
        cList := cList + [p.identifier];
      } else if p.element == N {
        nList := nList + [p.identifier];
      } else if p.element == O {
        oList := oList + [p.identifier];
      } else if p.element == S {
        sList := sList + [p.identifier];
      } else if p.element == H {
        hList := hList + [p.identifier];
      }
      i := i + 1;
    }
    assert pdbIDs[..i] == pdbIDs;
    sig := ResidueSignature(
      Concat(Sort(cList) + Sort(nList) + Sort(oList) + Sort(sList)),
      Concat(Sort(hList)));
  }

  /** Two residues' hydrogens match when their hydrogen signatures agree. */
  predicate HydrogensMatch(a: ResidueSignature, b: ResidueSignature) {
    a.hydrogenSignature == b.hydrogenSignature
  }
}
