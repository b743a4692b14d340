/** The undo/redo history of a geometry: saved copies of the geometry,
    oldest first, and the step the current geometry corresponds to. */
module History {
  import opened Wrappers

  /** The saved geometries, oldest first, and the history step: the index
      of the saved geometry the current one was last saved as or restored
      from. */
  datatype Timeline<S> = Timeline(states: seq<S>, step: int)

  /** The step names a saved geometry, or the history is empty and the step
      is 0. */
  predicate InRange<S>(t: Timeline<S>) {
    if t.states == [] then t.step == 0 else 0 <= t.step < |t.states|
  }

  /** The saved geometries that survive a save: those up to the current
      step (the redo states after it are discarded), without the oldest
      one when the history already holds `maxHistory` geometries. */
  function Kept<S>(t: Timeline<S>, maxHistory: int): (r: seq<S>)
    ensures |r| <= |t.states|
    ensures 0 < maxHistory && |t.states| <= maxHistory ==> |r| < maxHistory
    ensures InRange(t) && t.states != [] ==>
      r == t.states[(if |t.states| == maxHistory then 1 else 0)..t.step + 1]
  {
    var upTo := if t.step + 1 <= 0 then [] else if t.step + 1 < |t.states| then t.states[..t.step + 1] else t.states;
    if |t.states| == maxHistory && t.states != [] && upTo != [] then upTo[1..] else upTo
  }

  /** Saving `g`: the surviving geometries followed by `g`, with the step
      on `g`. */
  function Save<S>(t: Timeline<S>, g: S, maxHistory: int): (r: Timeline<S>)
    ensures InRange(r) && r.step == |r.states| - 1 && r.states[r.step] == g
    ensures 0 < maxHistory && |t.states| <= maxHistory ==> |r.states| <= maxHistory
  {
    var kept := Kept(t, maxHistory);
    Timeline(kept + [g], |kept|)
  }

  /** Saving `g` as the history component does it: the discarded children
      are only destroyed at the end of the frame, so the step is taken from
      the child count while they are still there, one past the last index
      before the save. */
  function SaveAsWritten<S>(t: Timeline<S>, g: S, maxHistory: int): (r: Timeline<S>)
    ensures r.states == Save(t, g, maxHistory).states
    ensures r == Save(t, g, maxHistory) <==> |Kept(t, maxHistory)| == |t.states|
    ensures InRange(r) <==> r == Save(t, g, maxHistory)
  {
    Timeline(Kept(t, maxHistory) + [g], |t.states|)
  }

  /** One step back, when there is an older saved geometry. */
  function UndoStep<S>(t: Timeline<S>): (r: Timeline<S>)
    ensures r.states == t.states
    ensures r.step == t.step - 1 <==> t.step >= 1
    ensures r.step != t.step - 1 ==> r == t
  {
    if t.step < 1 then t else t.(step := t.step - 1)
  }

  /** One step forward, when there is a newer saved geometry. */
  function RedoStep<S>(t: Timeline<S>): (r: Timeline<S>)
    ensures r.states == t.states
    ensures r.step == t.step + 1 <==> t.step + 1 < |t.states|
    ensures r.step != t.step + 1 ==> r == t
  {
    if t.step + 2 > |t.states| then t else t.(step := t.step + 1)
  }

  /** The geometries kept by a save are those at or before the step, in
      order, the oldest dropped when the history is full. */
  lemma SaveDiscardsRedo<S>(t: Timeline<S>, g: S, maxHistory: int)
    requires InRange(t) && t.states != []
    ensures var s := Save(t, g, maxHistory).states;
      var first := if |t.states| == maxHistory && t.states != [] then 1 else 0;
      s == t.states[first..t.step + 1] + [g]
  {
  }

  /** Undo and redo keep the step on a saved geometry. */
  lemma UndoRedoInRange<S>(t: Timeline<S>)
    requires InRange(t)
    ensures InRange(UndoStep(t)) && InRange(RedoStep(t))
    ensures UndoStep(t).states == t.states && RedoStep(t).states == t.states
  {
  }

  /** Redo takes back an undo, and undo takes back a redo. */
  lemma UndoRedoInverse<S>(t: Timeline<S>)
    requires InRange(t)
    ensures t.step >= 1 ==> RedoStep(UndoStep(t)) == t
    ensures t.step + 2 <= |t.states| ==> UndoStep(RedoStep(t)) == t
  {
  }

  /** Undoing a save of an unchanged geometry brings the step back to the
      geometry that was current before the save, unless it was the oldest
      and the save evicted it. */
  lemma UndoAfterSave<S>(t: Timeline<S>, g: S, maxHistory: int)
    requires InRange(t) && t.states != [] && |t.states| != maxHistory
    ensures var u := UndoStep(Save(t, g, maxHistory));
      t.step >= 0 && InRange(u) && u.states[u.step] == t.states[t.step]
  {
    SaveDiscardsRedo(t, g, maxHistory);
  }

  /** After an undo the history component's save leaves the step past the
      end of the history. */
  lemma SaveAsWrittenLeavesRange<S>(a: S, b: S, c: S, g: S)
    ensures var t := Timeline([a, b, c], 0);
      InRange(t) && !InRange(SaveAsWritten(t, g, 10))
      && SaveAsWritten(t, g, 10) == Timeline([a, g], 3)
  {
    var t := Timeline([a, b, c], 0);
    assert Kept(t, 10) == [a];
  }

  /** Once the history is full, the history component's save leaves the
      step one past the newest geometry. */
  lemma SaveAsWrittenWhenFull<S>(a: S, b: S, g: S)
    ensures var t := Timeline([a, b], 1);
      InRange(t) && SaveAsWritten(t, g, 2) == Timeline([b, g], 2)
      && !InRange(SaveAsWritten(t, g, 2))
  {
    var t := Timeline([a, b], 1);
    assert Kept(t, 2) == [b];
  }

  /** The history component of a geometry: its saved copies, the step, the
      bound on the number of copies and the geometry it saves and
      restores (absent before it is given one). */
  class GeometryHistory<S> {
    var states: seq<S>
    var historyStep: int
    var maxHistory: int
    var geometry: Option<S>

    function Current(): Timeline<S>
      reads this
    {
      Timeline(states, historyStep)
    }

    constructor (geometry: Option<S>, maxHistory: int)
      ensures Current() == Timeline([], 0) && InRange(Current())
      ensures this.geometry == geometry && this.maxHistory == maxHistory
    {
      states, historyStep := [], 0;
      this.maxHistory, this.geometry := maxHistory, geometry;
    }

    /** Clears the history and attaches a geometry and a bound. */
    method Initialise(geometry: Option<S>, maxHistory: int)
      modifies this
      ensures Current() == Timeline([], 0)
      ensures this.geometry == geometry && this.maxHistory == maxHistory
    {
      ClearHistory();
      this.maxHistory := maxHistory;
      this.geometry := geometry;
    }

    /** Discards every saved geometry. */
    method ClearHistory()
      modifies this
      ensures Current() == Timeline([], 0) && InRange(Current())
      ensures geometry == old(geometry) && maxHistory == old(maxHistory)
    {
      states := [];
      historyStep := 0;
    }

    /** Clears the history and saves the geometry as its only state;
      without a geometry the history is left empty. */
    method ResetHistory()
      modifies this
      ensures old(geometry).None? ==> Current() == Timeline([], 0)
      ensures old(geometry).Some? ==> Current() == Timeline([old(geometry).value], 0)
      ensures InRange(Current())
      ensures geometry == old(geometry) && maxHistory == old(maxHistory)
    {
      ClearHistory();
      if geometry.None? {
        return;
      }
      SaveState();
    }

    /** Saves a copy of the geometry, discarding the redo states and, when
      the history is full, the oldest copy; without a geometry nothing is
      saved. */
    method SaveState()
      modifies this
      ensures old(geometry).None? ==> Current() == old(Current())
      ensures old(geometry).Some? ==> Current() == Save(old(Current()), old(geometry).value, maxHistory)
      ensures geometry == old(geometry) && maxHistory == old(maxHistory)
    {
      if geometry.None? {
        return;
      }
      var kept := Kept(Current(), maxHistory);
      states := kept + [geometry.value];
      historyStep := |states| - 1;
    }

    /** Saves as the history component does it, with the step taken from
      the child count before the discarded copies are destroyed. */
    method SaveStateAsWritten()
      modifies this
      ensures old(geometry).None? ==> Current() == old(Current())
      ensures old(geometry).Some? ==> Current() == SaveAsWritten(old(Current()), old(geometry).value, maxHistory)
      ensures geometry == old(geometry) && maxHistory == old(maxHistory)
    {
      if geometry.None? {
        return;
      }
      var childCount := |states| + 1;
      states := Kept(Current(), maxHistory) + [geometry.value];
      historyStep := childCount - 1;
    }

    /** Restores the saved geometry at `step`; a step outside the history
      changes nothing. A history without a geometry to restore into also
      changes nothing here, where `CopyTo` on the null target throws; no
      saved copy exists then, since saving needs a geometry. */
    method LoadState(step: int) returns (loaded: bool)
      modifies this
      ensures loaded <==> 0 <= step < |states| && old(geometry).Some?
      ensures loaded ==> geometry == Some(states[step])
      ensures !loaded ==> geometry == old(geometry)
      ensures Current() == old(Current()) && maxHistory == old(maxHistory)
    {
      if step < 0 || step >= |states| {
        return false;
      }
      if geometry.None? {
        return false;
      }
      geometry := Some(states[step]);
      return true;
    }

    /** Steps back one saved geometry and restores it; at the first one
      nothing happens. */
    method Undo()
      modifies this
      ensures Current() == UndoStep(old(Current())) && maxHistory == old(maxHistory)
      ensures old(historyStep) >= 1 && historyStep < |states| && old(geometry).Some? ==>
        geometry == Some(states[historyStep])
      ensures old(historyStep) < 1 || historyStep >= |states| ==> geometry == old(geometry)
    {
      if historyStep < 1 {
        return;
      }
      historyStep := historyStep - 1;
      var _ := LoadState(historyStep);
    }

    /** Steps forward one saved geometry and restores it; at the newest one
      nothing happens. */
    method Redo()
      modifies this
      ensures Current() == RedoStep(old(Current())) && maxHistory == old(maxHistory)
      ensures old(historyStep) + 2 <= |states| && 0 <= historyStep && old(geometry).Some? ==>
        geometry == Some(states[historyStep])
      ensures old(historyStep) + 2 > |states| || historyStep < 0 ==> geometry == old(geometry)
    {
      if historyStep + 2 > |states| {
        return;
      }
      historyStep := historyStep + 1;
      var _ := LoadState(historyStep);
    }
  }
}
