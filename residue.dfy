/** A residue's atom table: atoms keyed by PDB ID, added with collision-free
    numbering, protons placed on a host, atoms removed and renamed. */
module Residues {
  import opened Wrappers
  import opened ResidueIDs
  import opened Atoms
  import Data

  datatype ResidueError =
    | PDBIDExists(pdbID: PDBID)
    | PDBIDMissing(pdbID: PDBID)
    | TooManyProtons(host: PDBID)

  function WithNumber(p: PDBID, n: int): PDBID {
    PDBID(p.element, p.identifier, n)
  }

  /** `q` is the first ID at or above `p`'s number, with `p`'s element and
      identifier, that `keys` does not hold. */
  predicate FirstFree(keys: set<PDBID>, p: PDBID, q: PDBID) {
    q == WithNumber(p, q.number) && q.number >= p.number && q !in keys
    && forall n :: p.number <= n < q.number ==> WithNumber(p, n) in keys
  }

  /** At most one ID is the first free one. */
  lemma FirstFreeUnique(keys: set<PDBID>, p: PDBID, q: PDBID, q': PDBID)
    requires FirstFree(keys, p, q) && FirstFree(keys, p, q')
    ensures q == q'
  {
  }

  /** The IDs of `keys` that the search from `p` may still meet. */
  function Ahead(keys: set<PDBID>, p: PDBID): set<PDBID> {
    set q | q in keys && q == WithNumber(p, q.number) && q.number >= p.number
  }

  lemma AheadShrinks(keys: set<PDBID>, p: PDBID)
    requires p in keys
    ensures |Ahead(keys, NextNumber(p))| < |Ahead(keys, p)|
  {
    var a, b := Ahead(keys, NextNumber(p)), Ahead(keys, p);
    assert a <= b - {p};
    assert b - {p} == a + ((b - {p}) - a);
  }

  /** The PDB ID a proton attached to `host` gets with number `n`. */
  function ProtonID(host: PDBID, n: int): PDBID {
    PDBID(H, host.identifier, n)
  }

  predicate HasProton(keys: set<PDBID>) {
    exists p :: p in keys && p.element == H
  }

  class Residue {
    var residueID: ResidueID
    var residueName: string
    var state: Data.ResidueState
    var atoms: map<PDBID, Atom>
    var protonated: bool

    /** Every atom of the table carries this residue's ID. */
    predicate Valid()
      reads this, atoms.Values
    {
      forall p :: p in atoms ==> atoms[p].residueID == residueID
    }

    constructor (residueID: ResidueID, residueName: string, state: Data.ResidueState)
      ensures this.residueID == residueID && this.residueName == residueName && this.state == state
      ensures atoms == map[] && !protonated
      ensures Valid()
    {
      this.residueID := residueID;
      this.residueName := residueName;
      this.state := state;
      atoms := map[];
      protonated := false;
    }

    function Size(): (n: nat)
      reads this
    {
      |atoms|
    }

    function ProtonCount(): (n: nat)
      reads this
      ensures n == 0 <==> !HasProton(atoms.Keys)
    {
      var hs := set p | p in atoms && p.element == H;
      assert forall p :: p in atoms && p.element == H ==> p in hs;
      |hs|
    }

    /** The search of the numbering overload: counts the number up from
        `pdbID` until the table has no atom under it. */
    method FirstFreeID(pdbID: PDBID) returns (accepted: PDBID)
      ensures FirstFree(atoms.Keys, pdbID, accepted)
    {
      accepted := pdbID;
      while accepted in atoms
        invariant accepted == WithNumber(pdbID, accepted.number) && accepted.number >= pdbID.number
        invariant forall n :: pdbID.number <= n < accepted.number ==> WithNumber(pdbID, n) in atoms
        decreases |Ahead(atoms.Keys, accepted)|
      {
        AheadShrinks(atoms.Keys, accepted);
        accepted := NextNumber(accepted);
      }
    }

    /** Stores `atom` under `pdbID`, which must be new: gives it this
        residue's ID and marks the residue protonated for a hydrogen. */
    method Store(pdbID: PDBID, atom: Atom)
      requires pdbID !in atoms
      modifies this, atom
      ensures atoms == old(atoms)[pdbID := atom] && |atoms| == |old(atoms)| + 1
      ensures atom.residueID == residueID
      ensures protonated == (old(protonated) || pdbID.element == H)
      ensures residueID == old(residueID) && residueName == old(residueName)
      ensures atom.internalConnections == old(atom.internalConnections)
      ensures atom.externalConnections == old(atom.externalConnections)
      ensures atom.amber == old(atom.amber) && atom.oniomLayer == old(atom.oniomLayer)
      ensures old(Valid()) ==> Valid()
    {
      atoms := atoms[pdbID := atom];
      atom.residueID := residueID;
      if pdbID.element == H {
        protonated := true;
      }
    }

    /** Adds `atom` under `pdbID`. When the ID is taken, fails if
        `throwIfExists`, and otherwise uses the first free number above it. */
    method AddAtom(pdbID: PDBID, atom: Atom, throwIfExists: bool) returns (r: Result<PDBID, ResidueError>)
      modifies this, atom
      ensures throwIfExists && pdbID in old(atoms) ==>
        r == Err(PDBIDExists(pdbID)) && atoms == old(atoms) && protonated == old(protonated)
      ensures !(throwIfExists && pdbID in old(atoms)) ==>
        r.Ok? && FirstFree(old(atoms).Keys, pdbID, r.value)
        && atoms == old(atoms)[r.value := atom] && |atoms| == |old(atoms)| + 1
        && atom.residueID == residueID
        && protonated == (old(protonated) || r.value.element == H)
      ensures residueID == old(residueID) && residueName == old(residueName)
      ensures old(Valid()) ==> Valid()
    {
      if throwIfExists && pdbID in atoms {
        return Err(PDBIDExists(pdbID));
      }
      var accepted := FirstFreeID(pdbID);
      Store(accepted, atom);
      r := Ok(accepted);
    }

    /** The numbering overload: adds `atom` under the first free number at
        or above `pdbID`'s, and reports the ID it used. */
    method AddAtomNumbered(pdbID: PDBID, atom: Atom) returns (accepted: PDBID)
      modifies this, atom
      ensures FirstFree(old(atoms).Keys, pdbID, accepted)
      ensures pdbID !in old(atoms) ==> accepted == pdbID
      ensures accepted !in old(atoms) && atoms == old(atoms)[accepted := atom]
      ensures |atoms| == |old(atoms)| + 1
      ensures atom.residueID == residueID
      ensures protonated == (old(protonated) || accepted.element == H)
      ensures residueID == old(residueID) && residueName == old(residueName)
      ensures old(Valid()) ==> Valid()
    {
      accepted := FirstFreeID(pdbID);
      assert pdbID == WithNumber(pdbID, pdbID.number);
      Store(accepted, atom);
    }

    /** The first proton number from 0 to 7 not yet used on `host`'s
        identifier, if any. */
    method FreeProtonNumber(host: PDBID) returns (found: Option<nat>)
      ensures found.Some? ==>
        found.value < 8 && ProtonID(host, found.value) !in atoms
        && forall n :: 0 <= n < found.value ==> ProtonID(host, n) in atoms
      ensures found.None? ==> forall n :: 0 <= n < 8 ==> ProtonID(host, n) in atoms
    {
      var n := 0;
      while n < 8
        invariant 0 <= n <= 8
        invariant forall k :: 0 <= k < n ==> ProtonID(host, k) in atoms
      {
        if ProtonID(host, n) !in atoms {
          return Some(n);
        }
        n := n + 1;
      }
      return None;
    }

    /** Attaches a new hydrogen to the atom `host`: it takes the first free
        number from 0 to 7 on the host's identifier, gets the link type the
        host's element and neighbours call for (the corrected
        `Data.GetLinkType`) and the host's layer, and is
        bonded to the host with a single bond. Fails when all eight numbers
        are taken, or when the host is not in the residue. */
    method AddProton(host: PDBID) returns (r: Result<PDBID, ResidueError>)
      requires Valid()
      modifies this, if host in atoms then {atoms[host]} else {}
      ensures (forall n :: 0 <= n < 8 ==> ProtonID(host, n) in old(atoms)) ==>
        r == Err(TooManyProtons(host)) && atoms == old(atoms)
      ensures r == Err(PDBIDMissing(host)) <==>
        (exists n :: 0 <= n < 8 && ProtonID(host, n) !in old(atoms)) && host !in old(atoms)
      ensures r.Err? ==> atoms == old(atoms) && protonated == old(protonated)
      ensures r.Ok? ==>
        host in old(atoms) && r.value.element == H && r.value.identifier == host.identifier
        && 0 <= r.value.number < 8 && r.value !in old(atoms)
        && (forall n :: 0 <= n < r.value.number ==> ProtonID(host, n) in old(atoms))
        && atoms.Keys == old(atoms).Keys + {r.value}
        && (forall p :: p in old(atoms) ==> atoms[p] == old(atoms)[p])
        && protonated
      ensures r.Ok? ==>
        var proton := atoms[r.value];
        fresh(proton) && proton.residueID == residueID
        && proton.amber == Data.GetLinkType(host.element, old(atoms[host].amber), old(atoms[host].Neighbours()))
        && proton.oniomLayer == atoms[host].oniomLayer
        && proton.internalConnections == map[host := SINGLE]
        && proton.externalConnections == map[]
        && atoms[host].internalConnections == old(atoms[host].internalConnections)[r.value := SINGLE]
        && atoms[host].externalConnections == old(atoms[host].externalConnections)
      ensures residueID == old(residueID) && residueName == old(residueName)
      ensures Valid()
    {
      var number := FreeProtonNumber(host);
      if number.None? {
        return Err(TooManyProtons(host));
      }
      if host !in atoms {
        return Err(PDBIDMissing(host));
      }
      var protonID := ProtonID(host, number.value);
      var hostAtom := atoms[host];
      var amber := Data.GetLinkType(host.element, hostAtom.amber, hostAtom.Neighbours());
      AttachProton(host, protonID, amber);
      r := Ok(protonID);
    }

    /** `AddProton` as written: the same steps, but the hydrogen's type is
        the one `Data.GetLinkTypeAsWritten` gives, which counts every
        neighbour of a carbon host rather than its electron-withdrawing
        (N, O, F, S, Cl) neighbours. */
    method AddProtonAsWritten(host: PDBID) returns (r: Result<PDBID, ResidueError>)
      requires Valid()
      modifies this, if host in atoms then {atoms[host]} else {}
      ensures (forall n :: 0 <= n < 8 ==> ProtonID(host, n) in old(atoms)) ==>
        r == Err(TooManyProtons(host)) && atoms == old(atoms)
      ensures r == Err(PDBIDMissing(host)) <==>
        (exists n :: 0 <= n < 8 && ProtonID(host, n) !in old(atoms)) && host !in old(atoms)
      ensures r.Err? ==> atoms == old(atoms) && protonated == old(protonated)
      ensures r.Ok? ==>
        host in old(atoms) && r.value.element == H && r.value.identifier == host.identifier
        && 0 <= r.value.number < 8 && r.value !in old(atoms)
        && (forall n :: 0 <= n < r.value.number ==> ProtonID(host, n) in old(atoms))
        && atoms.Keys == old(atoms).Keys + {r.value}
        && (forall p :: p in old(atoms) ==> atoms[p] == old(atoms)[p])
        && protonated
      ensures r.Ok? ==>
        var proton := atoms[r.value];
        fresh(proton) && proton.residueID == residueID
        && proton.amber == Data.GetLinkTypeAsWritten(host.element, old(atoms[host].amber), old(atoms[host].Neighbours()))
        && proton.oniomLayer == atoms[host].oniomLayer
        && proton.internalConnections == map[host := SINGLE]
        && proton.externalConnections == map[]
        && atoms[host].internalConnections == old(atoms[host].internalConnections)[r.value := SINGLE]
        && atoms[host].externalConnections == old(atoms[host].externalConnections)
      ensures residueID == old(residueID) && residueName == old(residueName)
      ensures Valid()
    {
      var number := FreeProtonNumber(host);
      if number.None? {
        return Err(TooManyProtons(host));
      }
      if host !in atoms {
        return Err(PDBIDMissing(host));
      }
      var protonID := ProtonID(host, number.value);
      var hostAtom := atoms[host];
      var amber := Data.GetLinkTypeAsWritten(host.element, hostAtom.amber, hostAtom.Neighbours());
      AttachProton(host, protonID, amber);
      r := Ok(protonID);
    }

    /** The successful part of `AddProton`: a new hydrogen of the given
        type in the host's layer, stored under `protonID` and bonded to the
        host with a single bond. */
    method AttachProton(host: PDBID, protonID: PDBID, amber: string)
      requires Valid() && host in atoms && protonID !in atoms && protonID.element == H
      modifies this, atoms[host]
      ensures host in atoms && protonID in atoms
      ensures atoms == old(atoms)[protonID := atoms[protonID]] && protonated
      ensures var proton := atoms[protonID];
        fresh(proton) && proton.residueID == residueID && proton.amber == amber
        && proton.oniomLayer == atoms[host].oniomLayer
        && proton.internalConnections == map[host := SINGLE]
        && proton.externalConnections == map[]
      ensures atoms[host].internalConnections == old(atoms[host].internalConnections)[protonID := SINGLE]
      ensures atoms[host].externalConnections == old(atoms[host].externalConnections)
      ensures residueID == old(residueID) && residueName == old(residueName)
      ensures Valid()
    {
      var hostAtom := atoms[host];
      var proton := new Atom(residueID, amber, 0.0, hostAtom.oniomLayer);
      Store(protonID, proton);
      proton.Connect(AtomID(residueID, host), SINGLE);
      hostAtom.Connect(AtomID(residueID, protonID), SINGLE);
    }

    /** Deletes the atom under `pdbID`, failing when there is none; the
        residue stops counting as protonated once no hydrogen is left. */
    method RemoveAtom(pdbID: PDBID) returns (r: Result<(), ResidueError>)
      modifies this
      ensures r.Ok? <==> pdbID in old(atoms)
      ensures r.Err? ==> r.error == PDBIDMissing(pdbID) && atoms == old(atoms) && protonated == old(protonated)
      ensures r.Ok? ==>
        atoms == old(atoms) - {pdbID}
        && protonated == (old(protonated) && HasProton(atoms.Keys))
      ensures residueID == old(residueID) && residueName == old(residueName)
      ensures old(Valid()) ==> Valid()
    {
      if pdbID !in atoms {
        return Err(PDBIDMissing(pdbID));
      }
      atoms := atoms - {pdbID};
      if ProtonCount() == 0 {
        protonated := false;
      }
      r := Ok(());
    }

    /** Moves the atom under `oldID` to `newID`: nothing happens when the two
        are equal; fails when `oldID` is absent or `newID` is taken. */
    method ChangePDBID(oldID: PDBID, newID: PDBID) returns (r: Result<(), ResidueError>)
      modifies this
      ensures oldID == newID ==> r.Ok? && atoms == old(atoms)
      ensures oldID != newID && oldID !in old(atoms) ==> r == Err(PDBIDMissing(oldID))
      ensures oldID != newID && oldID in old(atoms) && newID in old(atoms) ==> r == Err(PDBIDExists(newID))
      ensures r.Ok? <==> oldID == newID || (oldID in old(atoms) && newID !in old(atoms))
      ensures r.Err? ==> atoms == old(atoms)
      ensures r.Ok? && oldID != newID ==>
        oldID in old(atoms) && newID !in old(atoms)
        && atoms == (old(atoms) - {oldID})[newID := old(atoms)[oldID]]
      ensures |atoms| == |old(atoms)|
      ensures protonated == old(protonated)
      ensures residueID == old(residueID) && residueName == old(residueName)
      ensures old(Valid()) ==> Valid()
    {
      if oldID == newID {
        return Ok(());
      }
      if oldID !in atoms {
        return Err(PDBIDMissing(oldID));
      }
      if newID in atoms {
        return Err(PDBIDExists(newID));
      }
      var atom := atoms[oldID];
      atoms := (atoms - {oldID})[newID := atom];
      r := Ok(());
    }
  }

  /** Renaming and renaming back restores the table. */
  method RenameRoundTrip(residue: Residue, oldID: PDBID, newID: PDBID)
    requires oldID in residue.atoms && newID !in residue.atoms
    modifies residue
    ensures residue.atoms == old(residue.atoms)
  {
    var atoms := residue.atoms;
    var r := residue.ChangePDBID(oldID, newID);
    var back := residue.ChangePDBID(newID, oldID);
    assert residue.atoms.Keys == atoms.Keys;
  }

  /** Adding an atom and removing it again restores the table. */
  method AddThenRemove(residue: Residue, pdbID: PDBID, atom: Atom) returns (accepted: PDBID)
    modifies residue, atom
    ensures residue.atoms == old(residue.atoms)
    ensures accepted.element != H ==>
      residue.protonated == (old(residue.protonated) && HasProton(old(residue.atoms).Keys))
  {
    var atoms := residue.atoms;
    accepted := residue.AddAtomNumbered(pdbID, atom);
    assert accepted in residue.atoms;
    var r := residue.RemoveAtom(accepted);
    assert r.Ok?;
    assert residue.atoms.Keys == atoms.Keys;
  }

  /** How the rename rewrites a neighbour's bond to the moved atom, as
      written: the old name is dropped from and the new one added to the
      neighbour's table of bonds inside its own residue, whichever residue
      the neighbour is in. */
  method RetargetNeighbourAsWritten(neighbour: Atom, oldID: PDBID, newID: PDBID, bondType: BondType)
    modifies neighbour
    ensures neighbour.internalConnections == (old(neighbour.internalConnections) - {oldID})[newID := bondType]
    ensures neighbour.externalConnections == old(neighbour.externalConnections)
    ensures neighbour.residueID == old(neighbour.residueID)
  {
    neighbour.internalConnections := (neighbour.internalConnections - {oldID})[newID := bondType];
  }

  /** For a neighbour in another residue, the as-written rewrite leaves the
      bond pointing at the old atom ID and never at the new one. */
  method RetargetAsWrittenMissesExternal(neighbour: Atom, moved: ResidueID, oldID: PDBID, newID: PDBID, bondType: BondType)
    requires neighbour.residueID != moved && AtomID(moved, oldID) in neighbour.externalConnections
    requires AtomID(moved, newID) !in neighbour.externalConnections
    modifies neighbour
    ensures neighbour.IsConnectedTo(AtomID(moved, oldID))
    ensures !neighbour.IsConnectedTo(AtomID(moved, newID))
  {
    RetargetNeighbourAsWritten(neighbour, oldID, newID, bondType);
  }

  /** The rewrite the rename evidently intends: the neighbour's bond to the
      old atom ID is replaced by one to the new atom ID, in the internal or
      external table as the residues call for. */
  method RetargetNeighbour(neighbour: Atom, moved: ResidueID, oldID: PDBID, newID: PDBID, bondType: BondType)
    requires neighbour.Valid() && oldID != newID
    modifies neighbour
    ensures !neighbour.IsConnectedTo(AtomID(moved, oldID))
    ensures neighbour.IsConnectedTo(AtomID(moved, newID))
    ensures forall id :: id != AtomID(moved, oldID) && id != AtomID(moved, newID) ==>
      (neighbour.IsConnectedTo(id) <==> old(neighbour.IsConnectedTo(id)))
    ensures neighbour.Valid()
  {
    var removed := neighbour.TryDisconnect(AtomID(moved, oldID));
    neighbour.Connect(AtomID(moved, newID), bondType);
  }
}
