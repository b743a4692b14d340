/** A molecular geometry: residues keyed by residue ID, each holding its atoms.
    Bonds are made and broken on both atoms at once, and the bond graph is
    searched depth first, with an explicit stack, for the atoms connected to
    a start atom and for the number of bonds between two atoms. */
module Geometries {
  import opened Wrappers
  import opened ResidueIDs
  import opened Atoms
  import opened Residues
  import Data

  datatype GeometryError =
    | ResidueMissing(residueID: ResidueID)
    | AtomMissing(atomID: AtomID)
    | NoResidues(chainID: string)

  /** The bond graph: each atom's neighbours. */
  type Graph = map<AtomID, set<AtomID>>

  /** `w` goes from atom to bonded atom; every atom but the last is in the
      graph. */
  predicate IsWalk(g: Graph, w: seq<AtomID>) {
    |w| >= 1 && forall i :: 0 <= i < |w| - 1 ==> w[i] in g && w[i + 1] in g[w[i]]
  }

  /** `w` is a walk of `length` bonds from `a` to `b`. */
  predicate WalkBetween(g: Graph, w: seq<AtomID>, a: AtomID, b: AtomID, length: int) {
    IsWalk(g, w) && w[0] == a && w[|w| - 1] == b && |w| == length + 1
  }

  /** Some walk of `length` bonds leads from `a` to `b`. */
  ghost predicate ReachableIn(g: Graph, a: AtomID, b: AtomID, length: int) {
    exists w :: WalkBetween(g, w, a, b, length)
  }

  lemma WalkExtend(g: Graph, w: seq<AtomID>, a: AtomID, b: AtomID, length: int, n: AtomID)
    requires WalkBetween(g, w, a, b, length) && b in g && n in g[b]
    ensures WalkBetween(g, w + [n], a, n, length + 1)
  {
    var w' := w + [n];
    forall i | 0 <= i < |w'| - 1
      ensures w'[i] in g && w'[i + 1] in g[w'[i]]
    {
      if i < |w| - 1 {
        assert w'[i] == w[i] && w'[i + 1] == w[i + 1];
      }
    }
  }

  function Ids(s: seq<(int, AtomID)>): set<AtomID> {
    set k | 0 <= k < |s| :: s[k].1
  }

  function FoundIds(s: seq<(AtomID, int)>): set<AtomID> {
    set k | 0 <= k < |s| :: s[k].0
  }

  lemma IdsPop(s: seq<(int, AtomID)>)
    requires s != []
    ensures Ids(s) == Ids(s[..|s| - 1]) + {s[|s| - 1].1}
  {
    var t := s[..|s| - 1];
    forall x | x in Ids(s)
      ensures x in Ids(t) + {s[|s| - 1].1}
    {
      var k :| 0 <= k < |s| && s[k].1 == x;
      if k < |s| - 1 {
        assert t[k] == s[k];
      }
    }
    forall x | x in Ids(t)
      ensures x in Ids(s)
    {
      var k :| 0 <= k < |t| && t[k].1 == x;
      assert s[k] == t[k];
    }
  }

  lemma FoundIdsPush(s: seq<(AtomID, int)>, x: (AtomID, int))
    ensures FoundIds(s + [x]) == FoundIds(s) + {x.0}
  {
    var t := s + [x];
    forall y | y in FoundIds(t)
      ensures y in FoundIds(s) + {x.0}
    {
      var k :| 0 <= k < |t| && t[k].0 == y;
      if k < |s| {
        assert t[k] == s[k];
      }
    }
    forall y | y in FoundIds(s)
      ensures y in FoundIds(t)
    {
      var k :| 0 <= k < |s| && s[k].0 == y;
      assert t[k] == s[k];
    }
    assert t[|s|] == x;
  }

  /** Every neighbour of a member of `inside` is inside too, is one of the
      `outside` atoms, or is not an atom of the graph. */
  predicate ClosedExcept(g: Graph, inside: set<AtomID>, outside: set<AtomID>) {
    forall v, n :: v in inside && v in g && n in g[v] ==> n in inside || n in outside || n !in g
  }

  /** A walk that starts inside such a set and only visits atoms of the graph
      that are not outside ends inside. */
  lemma {:induction false} WalkStaysInside(g: Graph, inside: set<AtomID>, outside: set<AtomID>, w: seq<AtomID>)
    requires ClosedExcept(g, inside, outside) && IsWalk(g, w) && w[0] in inside
    requires forall i :: 0 <= i < |w| ==> w[i] in g && w[i] !in outside
    ensures w[|w| - 1] in inside
    decreases |w|
  {
    if |w| > 1 {
      var w' := w[..|w| - 1];
      assert IsWalk(g, w') by {
        forall i | 0 <= i < |w'| - 1
          ensures w'[i] in g && w'[i + 1] in g[w'[i]]
        {
          assert w'[i] == w[i] && w'[i + 1] == w[i + 1];
        }
      }
      WalkStaysInside(g, inside, outside, w');
      assert w[|w| - 2] in inside && w[|w| - 1] in g[w[|w| - 2]];
    }
  }

  /** Every neighbour of a member of `inside` is inside too. */
  predicate Closed(g: Graph, inside: set<AtomID>) {
    forall v, n :: v in inside && v in g && n in g[v] ==> n in inside
  }

  lemma {:induction false} WalkStaysClosed(g: Graph, inside: set<AtomID>, w: seq<AtomID>)
    requires Closed(g, inside) && IsWalk(g, w) && w[0] in inside
    ensures w[|w| - 1] in inside
    decreases |w|
  {
    if |w| > 1 {
      var w' := w[..|w| - 1];
      assert IsWalk(g, w') by {
        forall i | 0 <= i < |w'| - 1
          ensures w'[i] in g && w'[i + 1] in g[w'[i]]
        {
          assert w'[i] == w[i] && w'[i + 1] == w[i + 1];
        }
      }
      WalkStaysClosed(g, inside, w');
      assert w[|w| - 2] in g;
    }
  }

  /** Each stack entry holds an atom and the depth it was pushed at, and
      its ghost companion a walk of that many bonds from `start` to it. */
  ghost predicate StackReached(g: Graph, start: AtomID, depth: int, stack: seq<(int, AtomID)>, walks: seq<seq<AtomID>>) {
    |walks| == |stack|
    && forall k :: 0 <= k < |stack| ==>
         0 <= stack[k].0 && (depth >= 0 ==> stack[k].0 <= depth)
         && WalkBetween(g, walks[k], start, stack[k].1, stack[k].0)
  }

  /** The atoms yielded so far: distinct atoms of the graph outside
      `excluded`, each at a depth below a non-negative `depth` and with a
      walk of that many bonds from `start`. */
  ghost predicate FoundReached(g: Graph, start: AtomID, excluded: set<AtomID>, depth: int,
                               found: seq<(AtomID, int)>, walks: seq<seq<AtomID>>) {
    |walks| == |found|
    && (forall i, j :: 0 <= i < j < |found| ==> found[i].0 != found[j].0)
    && forall i :: 0 <= i < |found| ==>
         found[i].0 in g && found[i].0 !in excluded && 0 <= found[i].1 && (depth >= 0 ==> found[i].1 < depth)
         && WalkBetween(g, walks[i], start, found[i].0, found[i].1)
  }

  lemma StackPop(g: Graph, start: AtomID, depth: int, stack: seq<(int, AtomID)>, walks: seq<seq<AtomID>>)
    requires StackReached(g, start, depth, stack, walks) && stack != []
    ensures StackReached(g, start, depth, stack[..|stack| - 1], walks[..|walks| - 1])
    ensures 0 <= stack[|stack| - 1].0 && (depth >= 0 ==> stack[|stack| - 1].0 <= depth)
    ensures WalkBetween(g, walks[|walks| - 1], start, stack[|stack| - 1].1, stack[|stack| - 1].0)
    ensures Ids(stack) == Ids(stack[..|stack| - 1]) + {stack[|stack| - 1].1}
  {
    IdsPop(stack);
  }

  lemma FoundPush(g: Graph, start: AtomID, excluded: set<AtomID>, depth: int,
                  found: seq<(AtomID, int)>, walks: seq<seq<AtomID>>, id: AtomID, d: int, walk: seq<AtomID>)
    requires FoundReached(g, start, excluded, depth, found, walks)
    requires id in g && id !in excluded && id !in FoundIds(found) && 0 <= d && (depth >= 0 ==> d < depth)
    requires WalkBetween(g, walk, start, id, d)
    ensures FoundReached(g, start, excluded, depth, found + [(id, d)], walks + [walk])
    ensures FoundIds(found + [(id, d)]) == FoundIds(found) + {id}
  {
    FoundIdsPush(found, (id, d));
    forall i | 0 <= i < |found|
      ensures found[i].0 != id
    {
      assert found[i].0 in FoundIds(found);
    }
  }

  lemma SeenGrows(keys: set<AtomID>, seen: set<AtomID>, id: AtomID)
    requires id in keys && id !in seen
    ensures keys - (seen + {id}) < keys - seen
  {
    assert keys - (seen + {id}) == (keys - seen) - {id};
  }

  /** Pushes every atom of `neighbours` at depth `d`, in whatever order the
      neighbour table yields them, recording for each the walk that reaches
      it. */
  method PushNeighbours(stack: seq<(int, AtomID)>, ghost walks: seq<seq<AtomID>>, neighbours: set<AtomID>, d: int,
                        ghost g: Graph, ghost start: AtomID, ghost depth: int, ghost id: AtomID, ghost walk: seq<AtomID>)
    returns (stack': seq<(int, AtomID)>, ghost walks': seq<seq<AtomID>>)
    requires StackReached(g, start, depth, stack, walks)
    requires 0 < d && (depth >= 0 ==> d <= depth)
    requires id in g && g[id] == neighbours && WalkBetween(g, walk, start, id, d - 1)
    ensures StackReached(g, start, depth, stack', walks')
    ensures Ids(stack') == Ids(stack) + neighbours
  {
    stack', walks' := stack, walks;
    var rest := neighbours;
    while rest != {}
      invariant rest <= neighbours
      invariant StackReached(g, start, depth, stack', walks')
      invariant Ids(stack') == Ids(stack) + (neighbours - rest)
      decreases |rest|
    {
      var n :| n in rest;
      WalkExtend(g, walk, start, id, d - 1, n);
      IdsPop(stack' + [(d, n)]);
      assert (stack' + [(d, n)])[..|stack'|] == stack';
      stack', walks' := stack' + [(d, n)], walks' + [walk + [n]];
      rest := rest - {n};
    }
  }

  /** The walk visits only atoms of the graph outside `excluded`. */
  predicate Avoids(g: Graph, w: seq<AtomID>, excluded: set<AtomID>) {
    forall i :: 0 <= i < |w| ==> w[i] in g && w[i] !in excluded
  }

  /** Some walk leads from `a` to `b`, the last step possibly leaving the
      graph. */
  ghost predicate Reaches(g: Graph, a: AtomID, b: AtomID) {
    exists w :: IsWalk(g, w) && w[0] == a && w[|w| - 1] == b
  }

  /** The start has been seen, is pending or is not in the graph, and every
      neighbour of an expanded atom has been seen, is pending or is not in
      the graph. */
  predicate Covered(g: Graph, start: AtomID, expanded: set<AtomID>, seen: set<AtomID>, pending: set<AtomID>) {
    (start in seen || start in pending || start !in g)
    && forall v, n :: v in expanded && v in g && n in g[v] ==> n in seen || n in pending || n !in g
  }

  lemma CoveredSkip(g: Graph, start: AtomID, expanded: set<AtomID>, seen: set<AtomID>, pending: set<AtomID>, id: AtomID)
    requires Covered(g, start, expanded, seen, pending + {id}) && (id in seen || id !in g)
    ensures Covered(g, start, expanded, seen, pending)
  {
  }

  lemma CoveredVisit(g: Graph, start: AtomID, expanded: set<AtomID>, seen: set<AtomID>, pending: set<AtomID>, id: AtomID)
    requires Covered(g, start, expanded, seen, pending + {id}) && id in g
    ensures Covered(g, start, expanded + {id}, seen + {id}, pending + g[id])
  {
  }

  /** The state of the search `ConnectedAtomIDs` keeps between iterations:
      the pending stack with its walks, the yielded atoms with theirs, the
      seen set made of the excluded and the yielded atoms, and, for an
      unbounded search, every neighbour of a yielded atom accounted for. */
  ghost predicate Search(g: Graph, start: AtomID, excluded: set<AtomID>, depth: int,
                         stack: seq<(int, AtomID)>, walks: seq<seq<AtomID>>, seen: set<AtomID>,
                         found: seq<(AtomID, int)>, foundWalks: seq<seq<AtomID>>) {
    StackReached(g, start, depth, stack, walks)
    && FoundReached(g, start, excluded, depth, found, foundWalks)
    && seen == excluded + FoundIds(found)
    && (depth < 0 ==> Covered(g, start, FoundIds(found), seen, Ids(stack)))
  }

  /** Popping an atom that is seen, at the depth limit or not in the graph
      keeps the search state. */
  lemma SearchSkip(g: Graph, start: AtomID, excluded: set<AtomID>, depth: int,
                   stack: seq<(int, AtomID)>, walks: seq<seq<AtomID>>, seen: set<AtomID>,
                   found: seq<(AtomID, int)>, foundWalks: seq<seq<AtomID>>)
    requires Search(g, start, excluded, depth, stack, walks, seen, found, foundWalks) && stack != []
    requires var top := stack[|stack| - 1]; top.1 in seen || top.0 == depth || top.1 !in g
    ensures Search(g, start, excluded, depth, stack[..|stack| - 1], walks[..|walks| - 1], seen, found, foundWalks)
  {
    StackPop(g, start, depth, stack, walks);
    if depth < 0 {
      CoveredSkip(g, start, FoundIds(found), seen, Ids(stack[..|stack| - 1]), stack[|stack| - 1].1);
    }
  }

  /** Popping an atom that is yielded and whose neighbours are then pushed
      onto the rest of the stack keeps the search state. */
  lemma SearchVisit(g: Graph, start: AtomID, excluded: set<AtomID>, depth: int,
                    stack: seq<(int, AtomID)>, walks: seq<seq<AtomID>>, seen: set<AtomID>,
                    found: seq<(AtomID, int)>, foundWalks: seq<seq<AtomID>>,
                    stack': seq<(int, AtomID)>, walks': seq<seq<AtomID>>)
    requires Search(g, start, excluded, depth, stack, walks, seen, found, foundWalks) && stack != []
    requires var top := stack[|stack| - 1]; top.1 !in seen && top.0 != depth && top.1 in g
    requires StackReached(g, start, depth, stack', walks')
    requires Ids(stack') == Ids(stack[..|stack| - 1]) + g[stack[|stack| - 1].1]
    ensures var (d, id) := stack[|stack| - 1];
      Search(g, start, excluded, depth, stack', walks', seen + {id},
             found + [(id, d)], foundWalks + [walks[|walks| - 1]])
  {
    StackPop(g, start, depth, stack, walks);
    var (d, id) := stack[|stack| - 1];
    FoundPush(g, start, excluded, depth, found, foundWalks, id, d, walks[|walks| - 1]);
    if depth < 0 {
      CoveredVisit(g, start, FoundIds(found), seen, Ids(stack[..|stack| - 1]), id);
    }
  }

  /** When the stack runs empty the yielded atoms are what the search
      promises. */
  lemma SearchDone(g: Graph, start: AtomID, excluded: set<AtomID>, depth: int,
                   walks: seq<seq<AtomID>>, seen: set<AtomID>,
                   found: seq<(AtomID, int)>, foundWalks: seq<seq<AtomID>>)
    requires Search(g, start, excluded, depth, [], walks, seen, found, foundWalks)
    ensures forall i :: 0 <= i < |found| ==> ReachableIn(g, start, found[i].0, found[i].1)
    ensures depth < 0 ==>
      forall w :: IsWalk(g, w) && w[0] == start && Avoids(g, w, excluded) ==> w[|w| - 1] in FoundIds(found)
  {
    forall i | 0 <= i < |found|
      ensures ReachableIn(g, start, found[i].0, found[i].1)
    {
      assert WalkBetween(g, foundWalks[i], start, found[i].0, found[i].1);
    }
    if depth < 0 {
      forall w | IsWalk(g, w) && w[0] == start && Avoids(g, w, excluded)
        ensures w[|w| - 1] in FoundIds(found)
      {
        WalkStaysInside(g, FoundIds(found), excluded, w);
      }
    }
  }

  /** One iteration of the search loop of `ConnectedAtomIDs`: pops the top
      of the stack and, unless it is seen, at the depth limit or not in the
      graph, yields it and pushes its neighbours one level deeper. */
  method SearchStep(g: Graph, start: AtomID, excluded: set<AtomID>, depth: int,
                    stack: seq<(int, AtomID)>, ghost walks: seq<seq<AtomID>>, seen: set<AtomID>,
                    found: seq<(AtomID, int)>, ghost foundWalks: seq<seq<AtomID>>)
    returns (stack': seq<(int, AtomID)>, ghost walks': seq<seq<AtomID>>, seen': set<AtomID>,
             found': seq<(AtomID, int)>, ghost foundWalks': seq<seq<AtomID>>)
    requires Search(g, start, excluded, depth, stack, walks, seen, found, foundWalks) && stack != []
    ensures Search(g, start, excluded, depth, stack', walks', seen', found', foundWalks')
    ensures g.Keys - seen' < g.Keys - seen || (seen' == seen && |stack'| < |stack|)
  {
    var (currentDepth, atomID) := stack[|stack| - 1];
    ghost var walk := walks[|walks| - 1];
    if atomID in seen || currentDepth == depth || atomID !in g {
      SearchSkip(g, start, excluded, depth, stack, walks, seen, found, foundWalks);
      return stack[..|stack| - 1], walks[..|walks| - 1], seen, found, foundWalks;
    }
    StackPop(g, start, depth, stack, walks);
    stack', walks' := PushNeighbours(stack[..|stack| - 1], walks[..|walks| - 1], g[atomID], currentDepth + 1,
                                     g, start, depth, atomID, walk);
    SearchVisit(g, start, excluded, depth, stack, walks, seen, found, foundWalks, stack', walks');
    SeenGrows(g.Keys, seen, atomID);
    seen', found', foundWalks' := seen + {atomID}, found + [(atomID, currentDepth)], foundWalks + [walk];
  }

  /** Depth-first search of `g` from `start` with an explicit stack: atoms
      in `excluded`, or already yielded, stop the search; atoms not in the
      graph are skipped; with a non-negative `depth` nothing at that depth is
      expanded. Yields each atom reached with its depth. */
  method ConnectedAtomIDs(g: Graph, start: AtomID, excluded: set<AtomID>, depth: int) returns (found: seq<(AtomID, int)>)
    ensures forall i, j :: 0 <= i < j < |found| ==> found[i].0 != found[j].0
    ensures forall i :: 0 <= i < |found| ==> found[i].0 in g && found[i].0 !in excluded && found[i].1 >= 0
    ensures depth >= 0 ==> forall i :: 0 <= i < |found| ==> found[i].1 < depth
    ensures forall i :: 0 <= i < |found| ==> ReachableIn(g, start, found[i].0, found[i].1)
    ensures depth < 0 ==>
      forall w :: IsWalk(g, w) && w[0] == start && Avoids(g, w, excluded) ==> w[|w| - 1] in FoundIds(found)
  {
    var stack: seq<(int, AtomID)> := [(0, start)];
    ghost var walks: seq<seq<AtomID>> := [[start]];
    ghost var foundWalks: seq<seq<AtomID>> := [];
    var seen := excluded;
    found := [];
    assert Ids(stack) == {start} by {
      assert stack[0].1 == start;
    }
    while stack != []
      invariant Search(g, start, excluded, depth, stack, walks, seen, found, foundWalks)
      decreases g.Keys - seen, |stack|
    {
      stack, walks, seen, found, foundWalks := SearchStep(g, start, excluded, depth, stack, walks, seen, found, foundWalks);
    }
    SearchDone(g, start, excluded, depth, walks, seen, found, foundWalks);
  }

  /** Every neighbour of a seen atom has been seen or is pending. */
  predicate Enclosed(g: Graph, start: AtomID, seen: set<AtomID>, pending: set<AtomID>) {
    (start in seen || start in pending)
    && forall v, n :: v in seen && v in g && n in g[v] ==> n in seen || n in pending
  }

  lemma EnclosedSkip(g: Graph, start: AtomID, seen: set<AtomID>, pending: set<AtomID>, id: AtomID)
    requires Enclosed(g, start, seen, pending + {id}) && id in seen
    ensures Enclosed(g, start, seen, pending)
  {
  }

  lemma EnclosedVisit(g: Graph, start: AtomID, seen: set<AtomID>, pending: set<AtomID>, id: AtomID)
    requires Enclosed(g, start, seen, pending + {id}) && id in g
    ensures Enclosed(g, start, seen + {id}, pending + g[id])
  {
  }

  /** The state of the search `GraphDistance` keeps between iterations. */
  ghost predicate Distance(g: Graph, start: AtomID, end: AtomID, depth: int,
                           stack: seq<(int, AtomID)>, walks: seq<seq<AtomID>>, seen: set<AtomID>) {
    StackReached(g, start, depth, stack, walks)
    && seen <= g.Keys && end !in seen
    && (depth < 0 ==> Enclosed(g, start, seen, Ids(stack)))
  }

  lemma DistanceSkip(g: Graph, start: AtomID, end: AtomID, depth: int,
                     stack: seq<(int, AtomID)>, walks: seq<seq<AtomID>>, seen: set<AtomID>)
    requires Distance(g, start, end, depth, stack, walks, seen) && stack != []
    requires var top := stack[|stack| - 1]; top.1 in seen || top.0 == depth
    ensures Distance(g, start, end, depth, stack[..|stack| - 1], walks[..|walks| - 1], seen)
  {
    StackPop(g, start, depth, stack, walks);
    if depth < 0 {
      EnclosedSkip(g, start, seen, Ids(stack[..|stack| - 1]), stack[|stack| - 1].1);
    }
  }

  lemma DistanceVisit(g: Graph, start: AtomID, end: AtomID, depth: int,
                      stack: seq<(int, AtomID)>, walks: seq<seq<AtomID>>, seen: set<AtomID>,
                      stack': seq<(int, AtomID)>, walks': seq<seq<AtomID>>)
    requires Distance(g, start, end, depth, stack, walks, seen) && stack != []
    requires var top := stack[|stack| - 1]; top.1 != end && top.1 !in seen && top.1 in g
    requires StackReached(g, start, depth, stack', walks')
    requires Ids(stack') == Ids(stack[..|stack| - 1]) + g[stack[|stack| - 1].1]
    ensures Distance(g, start, end, depth, stack', walks', seen + {stack[|stack| - 1].1})
  {
    StackPop(g, start, depth, stack, walks);
    if depth < 0 {
      EnclosedVisit(g, start, seen, Ids(stack[..|stack| - 1]), stack[|stack| - 1].1);
    }
  }

  lemma DistanceDone(g: Graph, start: AtomID, end: AtomID, depth: int,
                     walks: seq<seq<AtomID>>, seen: set<AtomID>)
    requires Distance(g, start, end, depth, [], walks, seen) && depth < 0
    ensures forall w :: IsWalk(g, w) && w[0] == start ==> w[|w| - 1] != end
  {
    forall w | IsWalk(g, w) && w[0] == start
      ensures w[|w| - 1] != end
    {
      WalkStaysClosed(g, seen, w);
    }
  }

  /** The number of bonds from `start` to `end` along the path a depth-first
      search with an explicit stack finds: 0 for the same atom, -1 when the
      search runs out of atoms (or, with a non-negative `depth`, of atoms
      within it). Expanding an atom that is not in the graph fails with that
      atom. */
  method GraphDistance(g: Graph, start: AtomID, end: AtomID, depth: int) returns (r: Result<int, AtomID>)
    ensures start == end ==> r == Ok(0)
    ensures r.Ok? ==> r.value >= -1
    ensures r.Ok? && r.value >= 0 ==> ReachableIn(g, start, end, r.value)
    ensures depth >= 0 && r.Ok? ==> r.value <= depth
    ensures depth < 0 && r == Ok(-1) ==> forall w :: IsWalk(g, w) && w[0] == start ==> w[|w| - 1] != end
    ensures r.Err? ==> r.error !in g && Reaches(g, start, r.error)
  {
    if start == end {
      assert WalkBetween(g, [start], start, start, 0);
      return Ok(0);
    }
    var stack: seq<(int, AtomID)> := [(0, start)];
    ghost var walks: seq<seq<AtomID>> := [[start]];
    var seen: set<AtomID> := {};
    assert Ids(stack) == {start} by {
      assert stack[0].1 == start;
    }
    while stack != []
      invariant Distance(g, start, end, depth, stack, walks, seen)
      decreases g.Keys - seen, |stack|
    {
      var (currentDepth, atomID) := stack[|stack| - 1];
      ghost var walk := walks[|walks| - 1];
      StackPop(g, start, depth, stack, walks);
      if atomID == end {
        assert WalkBetween(g, walk, start, end, currentDepth);
        return Ok(currentDepth);
      }
      if atomID in seen || currentDepth == depth {
        DistanceSkip(g, start, end, depth, stack, walks, seen);
        stack, walks := stack[..|stack| - 1], walks[..|walks| - 1];
        continue;
      }
      if atomID !in g {
        assert IsWalk(g, walk) && walk[0] == start && walk[|walk| - 1] == atomID;
        return Err(atomID);
      }
      var stack', walks' := PushNeighbours(stack[..|stack| - 1], walks[..|walks| - 1], g[atomID], currentDepth + 1,
                                           g, start, depth, atomID, walk);
      DistanceVisit(g, start, end, depth, stack, walks, seen, stack', walks');
      SeenGrows(g.Keys, seen, atomID);
      seen := seen + {atomID};
      stack, walks := stack', walks';
    }
    if depth < 0 {
      DistanceDone(g, start, end, depth, walks, seen);
    }
    r := Ok(-1);
  }

  /** The highest residue number among a non-empty set of residue IDs. */
  method HighestNumber(ids: set<ResidueID>) returns (m: int)
    requires ids != {}
    ensures exists id :: id in ids && id.residueNumber == m
    ensures forall id :: id in ids ==> id.residueNumber <= m
  {
    var first :| first in ids;
    m := first.residueNumber;
    var rest := ids - {first};
    while rest != {}
      invariant first in ids && first.residueNumber <= m && rest <= ids
      invariant exists id :: id in ids && id.residueNumber == m
      invariant forall id :: id in ids - rest ==> id.residueNumber <= m
    {
      var id :| id in rest;
      assert ids - (rest - {id}) == (ids - rest) + {id};
      if id.residueNumber > m {
        m := id.residueNumber;
      }
      rest := rest - {id};
    }
    assert ids - rest == ids;
  }

  class Geometry {
    var residueDict: map<ResidueID, Residue>
    /** Every atom of every residue under its atom ID: an index kept in step
        with `residueDict`. */
    ghost var atomMap: map<AtomID, Atom>

    /** Residues sit under their own IDs and `atomMap` holds exactly the
        atoms of the residues. */
    ghost predicate Indexed()
      reads this, residueDict.Values
    {
      (forall r :: r in residueDict ==> residueDict[r].residueID == r)
      && (forall id :: id in atomMap <==> id.residueID in residueDict && id.pdbID in residueDict[id.residueID].atoms)
      && (forall id :: id in atomMap ==> atomMap[id] == residueDict[id.residueID].atoms[id.pdbID])
    }

    /** Every atom carries its residue's ID and keeps its own bonds
        consistent. */
    ghost predicate AtomsValid()
      reads this, atomMap.Values
    {
      forall id :: id in atomMap ==> atomMap[id].residueID == id.residueID && atomMap[id].Valid()
    }

    /** No atom object appears under two IDs. */
    ghost predicate Distinct()
      reads this
    {
      forall a, b :: a in atomMap && b in atomMap && a != b ==> atomMap[a] != atomMap[b]
    }

    ghost predicate Valid()
      reads this, residueDict.Values, atomMap.Values
    {
      Indexed() && AtomsValid() && Distinct()
    }

    /** The IDs of all atoms of all residues. */
    function AtomIDs(): (ids: set<AtomID>)
      reads this, residueDict.Values
      requires Indexed()
      ensures ids == atomMap.Keys
    {
      set r, p | r in residueDict && p in residueDict[r].atoms :: AtomID(r, p)
    }

    /** The bond graph: each atom's neighbours, internal ones completed with
        the atom's residue ID. */
    function Graph(): (g: Graph)
      reads this, residueDict.Values, atomMap.Values
      requires Indexed()
      ensures g.Keys == atomMap.Keys
      ensures forall id :: id in g ==> g[id] == atomMap[id].Neighbours()
    {
      map id | id in AtomIDs() :: residueDict[id.residueID].atoms[id.pdbID].Neighbours()
    }

    /** The atom under `atomID`; looking up a missing residue or atom fails. */
    function GetAtom(atomID: AtomID): (r: Result<Atom, GeometryError>)
      reads this, residueDict.Values
      requires Indexed()
      ensures atomID.residueID !in residueDict ==> r == Err(ResidueMissing(atomID.residueID))
      ensures atomID.residueID in residueDict && atomID !in atomMap ==> r == Err(AtomMissing(atomID))
      ensures r.Ok? <==> atomID in atomMap
      ensures r.Err? ==> r.error == LookupError(atomID)
      ensures r.Ok? ==> r.value == atomMap[atomID]
    {
      if atomID.residueID !in residueDict then Err(ResidueMissing(atomID.residueID))
      else if atomID.pdbID !in residueDict[atomID.residueID].atoms then Err(AtomMissing(atomID))
      else Ok(residueDict[atomID.residueID].atoms[atomID.pdbID])
    }

    /** The atom under `atomID`, if there is one. */
    function TryGetAtom(atomID: AtomID): (r: Option<Atom>)
      reads this, residueDict.Values
      requires Indexed()
      ensures r.Some? <==> atomID in atomMap
      ensures r.Some? ==> r.value == atomMap[atomID]
    {
      if atomID.residueID !in residueDict || atomID.pdbID !in residueDict[atomID.residueID].atoms then None
      else Some(residueDict[atomID.residueID].atoms[atomID.pdbID])
    }

    /** The error a lookup of a missing atom reports. */
    function LookupError(atomID: AtomID): GeometryError
      reads this
    {
      if atomID.residueID !in residueDict then ResidueMissing(atomID.residueID) else AtomMissing(atomID)
    }

    ghost function Touched(a0: AtomID, a1: AtomID): set<Atom>
      reads this
    {
      (if a0 in atomMap then {atomMap[a0]} else {}) + (if a1 in atomMap then {atomMap[a1]} else {})
    }

    /** Removes `other` from the bonds of the atom under `atomID`. */
    method Unbond(atomID: AtomID, other: AtomID) returns (r: Result<(), GeometryError>)
      requires Valid()
      modifies Touched(atomID, atomID)
      ensures Valid()
      ensures r.Ok? <==> atomID in atomMap
      ensures r.Err? ==> r.error == LookupError(atomID)
      ensures r.Ok? ==> atomMap[atomID].Neighbours() == old(atomMap[atomID].Neighbours()) - {other}
    {
      var got := GetAtom(atomID);
      if got.Err? {
        return Err(got.error);
      }
      var removed := got.value.TryDisconnect(other);
      forall id | id in atomMap && id != atomID
        ensures atomMap[id].Valid() && atomMap[id].residueID == id.residueID
      {
        assert atomMap[id] != atomMap[atomID];
      }
      r := Ok(());
    }

    /** Records a bond of type `bondType` to `other` on the atom under
        `atomID`. */
    method Bond(atomID: AtomID, other: AtomID, bondType: BondType) returns (r: Result<(), GeometryError>)
      requires Valid()
      modifies Touched(atomID, atomID)
      ensures Valid()
      ensures r.Ok? <==> atomID in atomMap
      ensures r.Err? ==> r.error == LookupError(atomID)
      ensures r.Ok? ==> atomMap[atomID].Neighbours() == old(atomMap[atomID].Neighbours()) + {other}
      ensures r.Ok? ==> BondTo(atomID, other) == Some(bondType)
    {
      var got := GetAtom(atomID);
      if got.Err? {
        return Err(got.error);
      }
      got.value.Connect(other, bondType);
      forall id | id in atomMap && id != atomID
        ensures atomMap[id].Valid() && atomMap[id].residueID == id.residueID
      {
        assert atomMap[id] != atomMap[atomID];
      }
      r := Ok(());
    }

    /** The type of the bond the atom under `atomID` records to `other`:
        looked up in its internal table when both share a residue, in its
        external table otherwise. */
    ghost function BondTo(atomID: AtomID, other: AtomID): Option<BondType>
      reads this, atomMap.Values
      requires atomID in atomMap
    {
      var atom := atomMap[atomID];
      if atomID.residueID == other.residueID then
        if other.pdbID in atom.internalConnections then Some(atom.internalConnections[other.pdbID]) else None
      else if other in atom.externalConnections then Some(atom.externalConnections[other]) else None
    }

    /** Removes the bond between two atoms from both of them. The first atom
        is changed before the second is looked up, so a missing second atom
        fails after the first has lost the bond. */
    method Disconnect(a0: AtomID, a1: AtomID) returns (r: Result<(), GeometryError>)
      requires Valid()
      modifies Touched(a0, a1)
      ensures Valid()
      ensures r.Ok? <==> a0 in atomMap && a1 in atomMap
      ensures a0 !in atomMap ==> r == Err(LookupError(a0))
      ensures a0 in atomMap && a1 !in atomMap ==>
        r == Err(LookupError(a1)) && atomMap[a0].Neighbours() == old(atomMap[a0].Neighbours()) - {a1}
      ensures r.Ok? ==> a1 !in atomMap[a0].Neighbours() && a0 !in atomMap[a1].Neighbours()
      ensures r.Ok? && a0 != a1 ==>
        atomMap[a0].Neighbours() == old(atomMap[a0].Neighbours()) - {a1}
        && atomMap[a1].Neighbours() == old(atomMap[a1].Neighbours()) - {a0}
    {
      r := Unbond(a0, a1);
      if r.Err? {
        return;
      }
      r := Unbond(a1, a0);
    }

    /** Records a bond of type `bondType` on both atoms: in the internal
        tables when they share a residue, the external ones otherwise. The
        first atom is changed before the second is looked up, so a missing
        second atom fails after the first has gained the bond. */
    method BondBoth(a0: AtomID, a1: AtomID, bondType: BondType) returns (r: Result<(), GeometryError>)
      requires Valid()
      modifies Touched(a0, a1)
      ensures Valid()
      ensures r.Ok? <==> a0 in atomMap && a1 in atomMap
      ensures a0 !in atomMap ==> r == Err(LookupError(a0))
      ensures a0 in atomMap && a1 !in atomMap ==>
        r == Err(LookupError(a1)) && BondTo(a0, a1) == Some(bondType)
        && atomMap[a0].Neighbours() == old(atomMap[a0].Neighbours()) + {a1}
      ensures r.Ok? ==>
        BondTo(a0, a1) == Some(bondType) && BondTo(a1, a0) == Some(bondType)
        && a1 in atomMap[a0].Neighbours() && a0 in atomMap[a1].Neighbours()
      ensures r.Ok? && a0 != a1 ==>
        atomMap[a0].Neighbours() == old(atomMap[a0].Neighbours()) + {a1}
        && atomMap[a1].Neighbours() == old(atomMap[a1].Neighbours()) + {a0}
    {
      r := Bond(a0, a1, bondType);
      if r.Err? {
        return;
      }
      r := Bond(a1, a0, bondType);
    }

    /** Bonds two atoms with `bondType`, recording the bond on both: in the
        internal tables when they share a residue, the external ones
        otherwise. NONE removes the bond instead, exactly as `Disconnect`
        does. The first atom is changed before the second is looked up, so a
        missing second atom fails after the first has been updated. */
    method Connect(a0: AtomID, a1: AtomID, bondType: BondType) returns (r: Result<(), GeometryError>)
      requires Valid()
      modifies Touched(a0, a1)
      ensures Valid()
      ensures r.Ok? <==> a0 in atomMap && a1 in atomMap
      ensures a0 !in atomMap ==> r == Err(LookupError(a0))
      ensures a0 in atomMap && a1 !in atomMap ==> r == Err(LookupError(a1))
      ensures bondType == NONE && r.Ok? ==> a1 !in atomMap[a0].Neighbours() && a0 !in atomMap[a1].Neighbours()
      ensures bondType == NONE && r.Ok? && a0 != a1 ==>
        atomMap[a0].Neighbours() == old(atomMap[a0].Neighbours()) - {a1}
        && atomMap[a1].Neighbours() == old(atomMap[a1].Neighbours()) - {a0}
      ensures bondType == NONE && a0 in atomMap && a1 !in atomMap ==>
        atomMap[a0].Neighbours() == old(atomMap[a0].Neighbours()) - {a1}
      ensures bondType != NONE && r.Ok? ==>
        BondTo(a0, a1) == Some(bondType) && BondTo(a1, a0) == Some(bondType)
        && a1 in atomMap[a0].Neighbours() && a0 in atomMap[a1].Neighbours()
      ensures bondType != NONE && r.Ok? && a0 != a1 ==>
        atomMap[a0].Neighbours() == old(atomMap[a0].Neighbours()) + {a1}
        && atomMap[a1].Neighbours() == old(atomMap[a1].Neighbours()) + {a0}
      ensures bondType != NONE && a0 in atomMap && a1 !in atomMap ==>
        atomMap[a0].Neighbours() == old(atomMap[a0].Neighbours()) + {a1} && BondTo(a0, a1) == Some(bondType)
    {
      if bondType == NONE {
        r := Disconnect(a0, a1);
      } else {
        r := BondBoth(a0, a1, bondType);
      }
    }

    /** The atoms reachable from `startAtomID` by depth-first search, each
        with the depth at which it was reached; see `ConnectedAtomIDs`. */
    method GetConnectedAtomIDs(startAtomID: AtomID, excludeList: set<AtomID>, depth: int) returns (found: seq<(AtomID, int)>)
      requires Valid()
      ensures forall i, j :: 0 <= i < j < |found| ==> found[i].0 != found[j].0
      ensures forall i :: 0 <= i < |found| ==> found[i].0 in atomMap && found[i].0 !in excludeList && found[i].1 >= 0
      ensures depth >= 0 ==> forall i :: 0 <= i < |found| ==> found[i].1 < depth
      ensures forall i :: 0 <= i < |found| ==> ReachableIn(Graph(), startAtomID, found[i].0, found[i].1)
      ensures depth < 0 ==>
        forall w :: IsWalk(Graph(), w) && w[0] == startAtomID && Avoids(Graph(), w, excludeList)
          ==> w[|w| - 1] in FoundIds(found)
    {
      var g := Graph();
      found := ConnectedAtomIDs(g, startAtomID, excludeList, depth);
      assert g == Graph();
    }

    /** The number of bonds on the path a depth-first search takes between
        two atoms; see `GraphDistance`. A missing atom met on the way fails
        as its lookup does. */
    method GetGraphDistance(startAtomID: AtomID, endAtomID: AtomID, depth: int) returns (r: Result<int, GeometryError>)
      requires Valid()
      ensures startAtomID == endAtomID ==> r == Ok(0)
      ensures r.Ok? ==> r.value >= -1
      ensures r.Ok? && r.value >= 0 ==> ReachableIn(Graph(), startAtomID, endAtomID, r.value)
      ensures depth >= 0 && r.Ok? ==> r.value <= depth
      ensures depth < 0 && r == Ok(-1) ==>
        forall w :: IsWalk(Graph(), w) && w[0] == startAtomID ==> w[|w| - 1] != endAtomID
      ensures r.Err? ==> exists x :: x !in atomMap && r.error == LookupError(x) && Reaches(Graph(), startAtomID, x)
    {
      var g := Graph();
      var d := GraphDistance(g, startAtomID, endAtomID, depth);
      assert g == Graph();
      match d
      case Ok(n) => r := Ok(n);
      case Err(x) => r := Err(LookupError(x));
    }

    /** The residues of chain `chainID`, waters and ions aside. */
    function ChainResidues(chainID: string): set<ResidueID>
      reads this, residueDict.Values
    {
      set r | r in residueDict && r.chainID == chainID
        && residueDict[r].state != Data.WATER && residueDict[r].state != Data.ION
    }

    /** The letter for residue number `n` of the chain: its one-letter name,
        X for a name the table does not know, and - for a gap. */
    function SequenceLetter(chainID: string, n: int, oneLetter: map<string, char>): char
      reads this, residueDict.Values
    {
      var id := ResidueID(chainID, n);
      if id !in residueDict then '-'
      else if residueDict[id].residueName in oneLetter then oneLetter[residueDict[id].residueName]
      else 'X'
    }

    /** The one-letter sequence of a chain, from residue number 0 up to the
        highest number of a residue that is neither water nor ion; a chain
        without such residues has no sequence. */
    method GetSequence(chainID: string, oneLetter: map<string, char>) returns (r: Result<string, GeometryError>)
      ensures r.Err? <==> ChainResidues(chainID) == {}
      ensures r.Ok? ==> forall id :: id in ChainResidues(chainID) ==> id.residueNumber < |r.value|
      ensures r.Ok? && r.value != [] ==> exists id :: id in ChainResidues(chainID) && id.residueNumber == |r.value| - 1
      ensures r.Ok? ==> forall n :: 0 <= n < |r.value| ==> r.value[n] == SequenceLetter(chainID, n, oneLetter)
    {
      var residues := ChainResidues(chainID);
      if residues == {} {
        return Err(NoResidues(chainID));
      }
      var maxResnum := HighestNumber(residues);
      var sequence := "";
      var residueNumber := 0;
      while residueNumber < maxResnum + 1
        invariant 0 <= residueNumber && |sequence| == residueNumber
        invariant residueNumber <= if maxResnum >= 0 then maxResnum + 1 else 0
        invariant forall n :: 0 <= n < residueNumber ==> sequence[n] == SequenceLetter(chainID, n, oneLetter)
      {
        var residueID := ResidueID(chainID, residueNumber);
        if residueID in residueDict {
          var residue := residueDict[residueID];
          if residue.residueName in oneLetter {
            sequence := sequence + [oneLetter[residue.residueName]];
          } else {
            sequence := sequence + "X";
          }
        } else {
          sequence := sequence + "-";
        }
        residueNumber := residueNumber + 1;
      }
      r := Ok(sequence);
    }
  }
}
