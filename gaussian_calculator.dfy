/** The Gaussian job settings of a structure: its ONIOM layers, each with a
    method, a basis, options, a charge and a multiplicity, and the settings
    that become the options of the optimisation and frequency keywords. */
module GaussianCalculators {
  import opened Wrappers
  import opened Text
  import opened Atoms

  /** One ONIOM layer of the job. */
  datatype Layer = Layer(oniomLayer: OniomLayerID, methodName: string, basis: string,
                         options: seq<string>, charge: int, multiplicity: int)

  /** `new Layer(...)`: absent options become an empty list; every other
      argument is kept as given. */
  function NewLayer(methodName: string, basis: string, options: Option<seq<string>>,
                    oniomLayer: OniomLayerID, charge: int, multiplicity: int): (l: Layer)
    ensures options.None? ==> l.options == []
    ensures options.Some? ==> l.options == options.value
    ensures l.oniomLayer == oniomLayer && l.methodName == methodName && l.basis == basis
    ensures l.charge == charge && l.multiplicity == multiplicity
  {
    var opts := if options.Some? then options.value else [];
    Layer(oniomLayer, methodName, basis, opts, charge, multiplicity)
  }

  // ---------------------------------------------------------------------
  // Method items

  /** The options of a method or of ONIOM as they follow it: nothing for
      no options, "=o" for one, "(o1,o2,...)" for several. */
  function OptionsSuffix(options: seq<string>): (r: string)
    ensures r == [] <==> options == []
    ensures r != [] ==> r[0] == '=' || r[0] == '('
  {
    if |options| == 0 then ""
    else if |options| == 1 then "=" + options[0]
    else "(" + Join(options, ",") + ")"
  }

  /** Reads options back from what `OptionsSuffix` writes. */
  function ParseOptionsSuffix(t: string): seq<string> {
    if t == [] then []
    else if t[0] == '=' then [t[1..]]
    else if |t| >= 2 then Split(t[1..|t| - 1], ',')
    else []
  }

  /** Options no one of which holds a comma, when there are several. */
  predicate CommaFree(options: seq<string>) {
    |options| >= 2 ==> forall k :: 0 <= k < |options| ==> ',' !in options[k]
  }

  /** Options are read back as written, as long as several of them hold
      no comma. */
  lemma OptionsSuffixRoundTrip(options: seq<string>)
    requires CommaFree(options)
    ensures ParseOptionsSuffix(OptionsSuffix(options)) == options
  {
    var t := OptionsSuffix(options);
    if |options| == 1 {
      assert t[1..] == options[0];
    } else if |options| >= 2 {
      assert t[1..|t| - 1] == Join(options, ",");
      SplitJoin(options, ',');
    }
  }

  /** The method and basis part of a method item. */
  function MethodHead(methodName: string, basis: string): string {
    if basis != "" then methodName + "/" + basis else methodName
  }

  /** `Layer.ToMethodItem`: the method, then "/basis" when there is a
      basis, then the options. */
  function MethodItem(l: Layer): (r: string)
    ensures |r| >= |l.methodName| && r[..|l.methodName|] == l.methodName
  {
    MethodHead(l.methodName, l.basis) + OptionsSuffix(l.options)
  }

  /** Reads the method, the basis and the options back from a method item:
      the head runs up to the first '=' or '(', the method up to the first
      '/' in the head. */
  function ParseMethodItem(s: string): (string, string, seq<string>) {
    var h := IndexOfAny(s, {'=', '('});
    var head := s[..h];
    var slash := IndexOfAny(head, {'/'});
    var basis := if slash < |head| then head[slash + 1..] else "";
    (head[..slash], basis, ParseOptionsSuffix(s[h..]))
  }

  /** A layer whose method item can be read back: the method holds none of
      '/', '=' and '(', the basis neither '=' nor '(', and several options
      no comma. */
  predicate Readable(l: Layer) {
    && '/' !in l.methodName && '=' !in l.methodName && '(' !in l.methodName
    && '=' !in l.basis && '(' !in l.basis
    && CommaFree(l.options)
  }

  /** The head of a method item is split off where its options begin. */
  lemma HeadSplit(head: string, suffix: string)
    requires '=' !in head && '(' !in head
    requires suffix == [] || suffix[0] == '=' || suffix[0] == '('
    ensures IndexOfAny(head + suffix, {'=', '('}) == |head|
  {
    var s := head + suffix;
    var n := IndexOfAny(s, {'=', '('});
    assert s[..|head|] == head;
    if suffix != [] {
      assert s[|head|] == suffix[0];
    }
  }

  /** The method is split off the basis at the first '/'. */
  lemma SlashSplit(methodName: string, basis: string)
    requires '/' !in methodName
    ensures var head := MethodHead(methodName, basis);
      var slash := IndexOfAny(head, {'/'});
      head[..slash] == methodName && (if slash < |head| then head[slash + 1..] else "") == basis
  {
    var head := MethodHead(methodName, basis);
    assert head[..|methodName|] == methodName;
    if basis != "" {
      assert head[|methodName|] == '/';
      assert head[|methodName| + 1..] == basis;
    }
  }

  /** A method item is read back into the layer's method, basis and
      options. */
  lemma MethodItemRoundTrip(l: Layer)
    requires Readable(l)
    ensures ParseMethodItem(MethodItem(l)) == (l.methodName, l.basis, l.options)
  {
    var head := MethodHead(l.methodName, l.basis);
    var suffix := OptionsSuffix(l.options);
    var s := head + suffix;
    HeadSplit(head, suffix);
    assert s[..|head|] == head && s[|head|..] == suffix;
    SlashSplit(l.methodName, l.basis);
    OptionsSuffixRoundTrip(l.options);
  }

  /** Two readable layers with the same method item agree on method, basis
      and options. */
  lemma MethodItemInjective(a: Layer, b: Layer)
    requires Readable(a) && Readable(b) && MethodItem(a) == MethodItem(b)
    ensures a.methodName == b.methodName && a.basis == b.basis && a.options == b.options
  {
    MethodItemRoundTrip(a);
    MethodItemRoundTrip(b);
  }

  // ---------------------------------------------------------------------
  // Layer order

  /** The position of a layer in the layer enumeration. */
  function Rank(l: OniomLayerID): nat {
    match l
    case REAL => 0
    case INTERMEDIATE => 1
    case MODEL => 2
  }

  predicate StrictlyDescending(ls: seq<OniomLayerID>) {
    forall i, j :: 0 <= i < j < |ls| ==> Rank(ls[i]) > Rank(ls[j])
  }

  /** The layers of `present`, highest first: what sorting a list of
      distinct layers and reversing it gives. */
  function Descending(present: set<OniomLayerID>): (r: seq<OniomLayerID>)
    ensures (MODEL in r <==> MODEL in present) && (INTERMEDIATE in r <==> INTERMEDIATE in present)
    ensures REAL in r <==> REAL in present
    ensures StrictlyDescending(r)
  {
    (if MODEL in present then [MODEL] else [])
    + (if INTERMEDIATE in present then [INTERMEDIATE] else [])
    + (if REAL in present then [REAL] else [])
  }

  /** The descending list holds exactly the layers present. */
  lemma DescendingMembers(present: set<OniomLayerID>)
    ensures forall x :: x in Descending(present) <==> x in present
  {
    forall x
      ensures x in Descending(present) <==> x in present
    {
      match x
      case REAL =>
      case INTERMEDIATE =>
      case MODEL =>
    }
  }

  /** Layers in strictly descending order hold no layer twice. */
  lemma DescendingDistinct(ls: seq<OniomLayerID>)
    requires StrictlyDescending(ls)
    ensures forall i, j :: 0 <= i < j < |ls| ==> ls[i] != ls[j]
    ensures |ls| <= 3
  {
    if |ls| > 3 {
      assert Rank(ls[0]) > Rank(ls[1]) > Rank(ls[2]) > Rank(ls[3]);
    }
  }

  /** `GetLayersInAtoms`: the distinct layers of the atoms, collected in
      order of first appearance, then sorted and reversed. */
  method GetLayersInAtoms(atomLayers: seq<OniomLayerID>) returns (oniomLayers: seq<OniomLayerID>)
    ensures forall x :: x in oniomLayers <==> x in atomLayers
    ensures StrictlyDescending(oniomLayers)
  {
    var collected: seq<OniomLayerID> := [];
    for k := 0 to |atomLayers|
      invariant forall x :: x in collected <==> x in atomLayers[..k]
      invariant forall i, j :: 0 <= i < j < |collected| ==> collected[i] != collected[j]
    {
      var oniomLayer := atomLayers[k];
      assert atomLayers[..k + 1] == atomLayers[..k] + [oniomLayer];
      if oniomLayer !in collected {
        collected := collected + [oniomLayer];
      }
    }
    assert atomLayers[..|atomLayers|] == atomLayers;
    oniomLayers := Descending(set x | x in collected);
    DescendingMembers(set x | x in collected);
  }

  // ---------------------------------------------------------------------
  // Keyword options

  datatype OptTarget = MINIMUM | TS

  datatype ConvergenceThreshold = NORMAL | TIGHT | VERY_TIGHT | LOOSE | EXPERT

  datatype ForceConstant = ESTIMATE | CALC_FIRST | CALC_ALL | RECALC | READ_FIRST | READ_CARTESIAN | OLD_ESTIMATE

  /** The option names of the optimisation targets. */
  function OptTargetName(t: OptTarget): (r: string)
    ensures NotToggle(r) && (t != MINIMUM ==> NotLimit(r))
  {
    match t
    case MINIMUM => "Minimum (Default)"
    case TS => "TS "
  }

  /** The option names of the convergence thresholds. */
  function ThresholdName(c: ConvergenceThreshold): (r: string)
    ensures NotToggle(r) && NotLimit(r)
  {
    match c
    case NORMAL => "Normal (Default)"
    case TIGHT => "Tight"
    case VERY_TIGHT => "VeryTight"
    case LOOSE => "Loose"
    case EXPERT => "Expert"
  }

  /** The option names of the force-constant choices. */
  function ForceConstantName(f: ForceConstant): string {
    match f
    case ESTIMATE => "NewEstmFC (Default)"
    case CALC_FIRST => "CalcFC"
    case CALC_ALL => "CalcAll"
    case RECALC => "RecalcFC"
    case READ_FIRST => "ReadFC"
    case READ_CARTESIAN => "RCFC"
    case OLD_ESTIMATE => "EstmFC"
  }

  /** A one-entry list when `b` holds, an empty one otherwise. */
  function When(b: bool, s: string): (r: seq<string>)
    ensures s in r <==> b
    ensures forall k :: 0 <= k < |r| ==> r[k] == s
  {
    if b then [s] else []
  }

  /** The force-constant option: none for the default estimate; for
      recalculation "RecalcFC" every step, "CalcFC" when the interval is
      below one and "RecalcFC=n" otherwise; the choice's name for the
      others. */
  function ForceConstantOptions(f: ForceConstant, everyNSteps: int): (r: seq<string>)
    ensures f == ESTIMATE <==> r == []
    ensures |r| <= 1
    ensures forall k :: 0 <= k < |r| ==> NotToggle(r[k]) && NotLimit(r[k])
  {
    PrefixNotToggle("RecalcFC=", IntToString(everyNSteps));
    assert ("RecalcFC" + "=" + IntToString(everyNSteps))[0] == 'R';
    if f == RECALC then
      if everyNSteps == 1 then [ForceConstantName(RECALC)]
      else if everyNSteps < 1 then [ForceConstantName(CALC_FIRST)]
      else [ForceConstantName(RECALC) + "=" + IntToString(everyNSteps)]
    else if f != ESTIMATE then [ForceConstantName(f)]
    else []
  }

  /** Recalculation is written as calculating once, calculating every
      step, or calculating every n steps. */
  lemma RecalcOptions(everyNSteps: int)
    ensures everyNSteps < 1 ==> ForceConstantOptions(RECALC, everyNSteps) == ["CalcFC"]
    ensures everyNSteps == 1 ==> ForceConstantOptions(RECALC, everyNSteps) == ["RecalcFC"]
    ensures everyNSteps > 1 ==> ForceConstantOptions(RECALC, everyNSteps) == ["RecalcFC=" + IntToString(everyNSteps)]
  {
    assert "RecalcFC" + "=" == "RecalcFC=";
  }

  /** The cycle and step limits: "MaxCycles=n" exactly when a positive
      number of steps is asked for, "MaxStep=n" exactly when a positive
      step size is. */
  function Limits(numOptSteps: int, optStepSize: int): (r: seq<string>)
    ensures |r| <= 2
    ensures forall k :: 0 <= k < |r| ==> NotToggle(r[k])
    ensures ("MaxCycles=" + IntToString(numOptSteps)) in r <==> numOptSteps > 0
    ensures ("MaxStep=" + IntToString(optStepSize)) in r <==> optStepSize > 0
  {
    var cycles := "MaxCycles=" + IntToString(numOptSteps);
    var step := "MaxStep=" + IntToString(optStepSize);
    PrefixNotToggle("MaxCycles=", IntToString(numOptSteps));
    PrefixNotToggle("MaxStep=", IntToString(optStepSize));
    assert cycles[3] != step[3];
    When(numOptSteps > 0, cycles) + When(optStepSize > 0, step)
  }

  /** The optimisation options after the limits: target, threshold and
      force constants, each present only when it departs from Gaussian's
      default, and none of them a limit. */
  function LaterOptimisationOptions(optTarget: OptTarget, threshold: ConvergenceThreshold,
                                    forceConstant: ForceConstant, everyNSteps: int): (r: seq<string>)
    ensures |r| <= 3
    ensures forall k :: 0 <= k < |r| ==> NotToggle(r[k]) && NotLimit(r[k])
  {
    When(optTarget != MINIMUM, OptTargetName(optTarget))
    + When(threshold != NORMAL, ThresholdName(threshold))
    + ForceConstantOptions(forceConstant, everyNSteps)
  }

  /** The optimisation options before the microiteration and macro-step
      toggles, with the cycle and step limits present exactly when they
      are positive. */
  function LeadingOptimisationOptions(numOptSteps: int, optStepSize: int, optTarget: OptTarget,
                                      threshold: ConvergenceThreshold, forceConstant: ForceConstant,
                                      everyNSteps: int): (r: seq<string>)
    ensures |r| <= 5
    ensures forall k :: 0 <= k < |r| ==> NotToggle(r[k])
    ensures ("MaxCycles=" + IntToString(numOptSteps)) in r <==> numOptSteps > 0
    ensures ("MaxStep=" + IntToString(optStepSize)) in r <==> optStepSize > 0
  {
    var later := LaterOptimisationOptions(optTarget, threshold, forceConstant, everyNSteps);
    assert ("MaxCycles=" + IntToString(numOptSteps))[0] == 'M';
    assert ("MaxStep=" + IntToString(optStepSize))[0] == 'M';
    Limits(numOptSteps, optStepSize) + later
  }

  /** At the default settings no option precedes the toggles. */
  lemma DefaultsAddNothing()
    ensures LeadingOptimisationOptions(0, 0, MINIMUM, NORMAL, ESTIMATE, 0) == []
  {
    assert Limits(0, 0) == [];
    assert LaterOptimisationOptions(MINIMUM, NORMAL, ESTIMATE, 0) == [];
  }

  /** The Gaussian settings of a structure. */
  class GaussianCalculator {
    var numOptSteps: int
    var optStepSize: int
    var optTarget: OptTarget
    var convergenceThreshold: ConvergenceThreshold
    var forceConstantOption: ForceConstant
    var forceConstantRecalcEveryNSteps: int
    var doMicroiterations: bool
    var doQuadMacro: bool
    var useHighPrecisionModes: bool
    var oniomOptions: seq<string>
    var guessOptions: seq<string>
    var geomOptions: seq<string>
    var additionalKeywords: seq<string>
    var title: string
    var layerDict: map<OniomLayerID, Layer>

    /** A new calculator: empty option lists, the title "Title", the
        settings at their defaults and a single default real layer. */
    constructor ()
      ensures layerDict == map[REAL := NewLayer("", "", None, REAL, 0, 1)]
      ensures oniomOptions == [] && guessOptions == [] && geomOptions == [] && additionalKeywords == []
      ensures title == "Title"
      ensures GetOptimisationOptions() == ["NoMicro"] && GetFreqOptions() == []
    {
      numOptSteps, optStepSize := 0, 0;
      optTarget, convergenceThreshold, forceConstantOption := MINIMUM, NORMAL, ESTIMATE;
      forceConstantRecalcEveryNSteps := 0;
      doMicroiterations, doQuadMacro, useHighPrecisionModes := false, false, false;
      oniomOptions, guessOptions, geomOptions, additionalKeywords := [], [], [], [];
      title := "Title";
      layerDict := map[REAL := NewLayer("", "", None, REAL, 0, 1)];
      DefaultsAddNothing();
    }

    /** `GetOptimisationOptions`: at most seven options, in this order:
        "MaxCycles=n" exactly when the step count is positive, "MaxStep=n"
        exactly when the step size is, the target unless it is a minimum,
        the threshold unless it is normal, the force-constant option,
        "NoMicro" exactly when microiterations are off and "QuadMacro"
        exactly when quadratic macro steps are on. */
    function GetOptimisationOptions(): (r: seq<string>)
      reads this
      ensures |r| <= 7
      ensures ("MaxCycles=" + IntToString(numOptSteps)) in r <==> numOptSteps > 0
      ensures ("MaxStep=" + IntToString(optStepSize)) in r <==> optStepSize > 0
      ensures "NoMicro" in r <==> !doMicroiterations
      ensures "QuadMacro" in r <==> doQuadMacro
    {
      var head := LeadingOptimisationOptions(numOptSteps, optStepSize, optTarget, convergenceThreshold,
                                             forceConstantOption, forceConstantRecalcEveryNSteps);
      PrefixNotToggle("MaxCycles=", IntToString(numOptSteps));
      PrefixNotToggle("MaxStep=", IntToString(optStepSize));
      Toggles(head, doMicroiterations, doQuadMacro, "MaxCycles=" + IntToString(numOptSteps),
              "MaxStep=" + IntToString(optStepSize));
      head + When(!doMicroiterations, "NoMicro") + When(doQuadMacro, "QuadMacro")
    }

    /** `GetFreqOptions`: "HPModes" exactly when high-precision modes are
        on, and nothing else. */
    function GetFreqOptions(): (r: seq<string>)
      reads this
      ensures "HPModes" in r <==> useHighPrecisionModes
      ensures |r| <= 1
    {
      When(useHighPrecisionModes, "HPModes")
    }

    /** `AddLayer`: the layer built from the arguments takes the place of
        any layer with its ONIOM level. */
    method AddLayer(methodName: string, basis: string, options: Option<seq<string>>,
                    oniomLayer: OniomLayerID, charge: int, multiplicity: int)
      modifies this
      ensures layerDict == old(layerDict)[oniomLayer := NewLayer(methodName, basis, options, oniomLayer, charge, multiplicity)]
      ensures layerDict[oniomLayer].methodName == methodName && layerDict[oniomLayer].basis == basis
      ensures unchanged(this`oniomOptions, this`geomOptions, this`guessOptions, this`additionalKeywords, this`title)
    {
      var layer := NewLayer(methodName, basis, options, oniomLayer, charge, multiplicity);
      layerDict := layerDict[oniomLayer := layer];
    }
  }

  /** The option names that microiteration and macro-step choices add. */
  predicate NotToggle(s: string) {
    s != "NoMicro" && s != "QuadMacro"
  }

  /** An option that is not a cycle or step limit, which all begin with
      'M'. */
  predicate NotLimit(s: string) {
    s != [] && s[0] != 'M'
  }

  /** Appending the toggles to options that are not toggles: each toggle
      is present exactly when it is switched on, and any other option is
      present exactly when it was before. */
  lemma Toggles(head: seq<string>, doMicroiterations: bool, doQuadMacro: bool, x: string, y: string)
    requires forall k :: 0 <= k < |head| ==> NotToggle(head[k])
    requires NotToggle(x) && NotToggle(y)
    ensures var r := head + When(!doMicroiterations, "NoMicro") + When(doQuadMacro, "QuadMacro");
      && |r| <= |head| + 2
      && ("NoMicro" in r <==> !doMicroiterations) && ("QuadMacro" in r <==> doQuadMacro)
      && (x in r <==> x in head) && (y in r <==> y in head)
  {
    assert "NoMicro" != "QuadMacro";
  }

  /** An option beginning with 'M' or 'R' is neither toggle. */
  lemma PrefixNotToggle(p: string, rest: string)
    requires |p| > 0 && (p[0] == 'M' || p[0] == 'R')
    ensures NotToggle(p + rest)
  {
    assert (p + rest)[0] == p[0];
  }
}
