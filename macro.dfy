/** The variable expansion of a macro group and the checks its `for`,
    `elementAt` and `formArray` steps make. A macro attribute may name a
    variable as `$(name)`, which expands to the variable's value (or to a
    reserved value such as the project path), or ask for the length of an
    array as `${name}`. The group keeps its string variables, its arrays and
    a `failed` flag that stops the macro once set. */
module Macros {
  import opened Wrappers
  import opened Text
  import opened ResidueIDs

  /** The directories the settings provide. */
  datatype Paths = Paths(projectPath: string, chargesDirectory: string, settingsPath: string, dataPath: string)

  /** What an expansion may read from a geometry: its chain IDs and its
      residue IDs, each already in text form. */
  datatype GeometryView = GeometryView(chainIDs: seq<string>, residueIDs: seq<string>)

  /** Everything an expansion reads. */
  datatype Env = Env(
    variables: map<string, string>,
    arrays: map<string, seq<string>>,
    paths: Paths,
    geometry: Option<GeometryView>)

  /** The text something expands to, and whether expanding it sets the
      group's `failed` flag. */
  datatype Expansion = Expansion(text: string, fails: bool)

  predicate EndsWithSlash(s: string) {
    s != [] && s[|s| - 1] == '/'
  }

  /** A settings directory as a variable gives it: itself when it ends with
      a slash, otherwise the project path with a slash. */
  function Directory(dir: string, projectPath: string): (r: string)
    ensures EndsWithSlash(r)
    ensures r == dir || r == projectPath + "/"
  {
    if EndsWithSlash(dir) then dir else projectPath + "/"
  }

  /** The names the group resolves itself when no variable of that name
      exists. */
  predicate Reserved(name: string) {
    name == "PROJECT" || name == "CHARGES_DIR" || name == "SETTINGS_PATH" || name == "DATA_PATH"
    || name == "GEOMETRY" || name == "CHAINS" || name == "RESIDUES"
  }

  /** The value of `$(name)`: the variable named by the lower-cased name,
      else a reserved value (reserved names are matched exactly); an
      unknown name, or RESIDUES without a geometry, fails the group. */
  function Variable(env: Env, name: string): (e: Expansion)
    ensures Lower(name) in env.variables ==> e == Expansion(env.variables[Lower(name)], false)
    ensures e.fails <==> (Lower(name) !in env.variables
      && (!Reserved(name) || (name == "RESIDUES" && env.geometry.None?)))
    ensures e.fails ==> e.text == ""
    ensures Lower(name) !in env.variables
      && (name == "PROJECT" || name == "CHARGES_DIR" || name == "SETTINGS_PATH" || name == "DATA_PATH")
      ==> EndsWithSlash(e.text)
  {
    var p := env.paths.projectPath;
    if Lower(name) in env.variables then Expansion(env.variables[Lower(name)], false)
    else if name == "PROJECT" then Expansion(if EndsWithSlash(p) then p else p + "/", false)
    else if name == "CHARGES_DIR" then Expansion(Directory(env.paths.chargesDirectory, p), false)
    else if name == "SETTINGS_PATH" then Expansion(Directory(env.paths.settingsPath, p), false)
    else if name == "DATA_PATH" then Expansion(Directory(env.paths.dataPath, p), false)
    else if name == "GEOMETRY" then Expansion("$(GEOMETRY)", false)
    else if name == "CHAINS" then
      Expansion(if env.geometry.None? then "" else Join(env.geometry.value.chainIDs, "-"), false)
    else if name == "RESIDUES" then
      if env.geometry.None? then Expansion("", true)
      else Expansion(Join(env.geometry.value.residueIDs, "-"), false)
    else Expansion("", true)
  }

  // ---------------------------------------------------------------------
  // The expansion scanner

  /** The scanner's state after some characters: the output so far, the
      name being read, its three flags (a '$' was seen; reading a variable
      name; reading an array name), whether a variable failed the group,
      and whether the scan stopped on an error. */
  datatype Scan = Scan(
    output: string,
    varStr: string,
    expectOpen: bool,
    parseVar: bool,
    parseLen: bool,
    failed: bool,
    halted: bool)

  const Start := Scan("", "", false, false, false, false, false)

  /** Stopping on an error: the output is discarded and the group fails. */
  function Halt(s: Scan): (r: Scan)
    ensures r.halted && r.failed && r.output == ""
  {
    s.(output := "", failed := true, halted := true)
  }

  /** One character of the scan. A '$' always arms the scanner; the
      character after it must open a variable or an array name. */
  function Step(env: Env, s: Scan, chr: char): Scan {
    if s.halted then s
    else if chr == '$' then s.(expectOpen := true)
    else if s.expectOpen then
      if chr == '(' then s.(varStr := "", parseVar := true, expectOpen := false)
      else if chr == '{' then s.(varStr := "", parseLen := true, expectOpen := false)
      else Halt(s)
    else if s.parseVar then
      if chr == ')' then
        var e := Variable(env, s.varStr);
        s.(output := s.output + e.text, parseVar := false, failed := s.failed || e.fails)
      else s.(varStr := s.varStr + [chr])
    else if s.parseLen then
      if chr == '}' then
        if Lower(s.varStr) in env.arrays then
          s.(output := s.output + NatToString(|env.arrays[Lower(s.varStr)]|), parseLen := false)
        else Halt(s)
      else s.(varStr := s.varStr + [chr])
    else s.(output := s.output + [chr])
  }

  /** The scan of `input` from state `s`, character by character. */
  function Run(env: Env, s: Scan, input: string): Scan
    decreases |input|
  {
    if input == [] then s else Step(env, Run(env, s, input[..|input| - 1]), input[|input| - 1])
  }

  /** The expansion of a whole input: empty and failing when the scan
      stopped on an error or ended inside a variable name; otherwise the
      output, failing when one of its variables did. An array name left
      open at the end is dropped without failing. */
  function Expand(env: Env, input: string): (e: Expansion)
    ensures e.text != [] ==> !e.fails || Run(env, Start, input).failed
  {
    var s := Run(env, Start, input);
    if s.halted || s.parseVar then Expansion("", true) else Expansion(s.output, s.failed)
  }

  lemma {:induction false} RunAppend(env: Env, s: Scan, a: string, b: string)
    ensures Run(env, s, a + b) == Run(env, Run(env, s, a), b)
    decreases |b|
  {
    if b == [] {
      assert a + b == a;
    } else {
      var last := b[|b| - 1];
      assert (a + b)[..|a + b| - 1] == a + b[..|b| - 1];
      RunAppend(env, s, a, b[..|b| - 1]);
      assert (a + b)[|a + b| - 1] == last;
    }
  }

  lemma {:induction false} HaltedStays(env: Env, s: Scan, input: string)
    requires s.halted
    ensures Run(env, s, input) == s
    decreases |input|
  {
    if input != [] {
      HaltedStays(env, s, input[..|input| - 1]);
    }
  }

  lemma RunOne(env: Env, s: Scan, c: char)
    ensures Run(env, s, [c]) == Step(env, s, c)
  {
    assert [c][..0] == [];
  }

  lemma RunTwo(env: Env, s: Scan, a: char, b: char)
    ensures Run(env, s, [a, b]) == Step(env, Step(env, s, a), b)
  {
    assert [a, b][..1] == [a];
    RunOne(env, s, a);
  }

  /** Stopping on an error ends the scan of the whole input. */
  lemma Halted(env: Env, input: string, i: nat)
    requires i < |input|
    requires Run(env, Start, input[..i + 1]).halted
    ensures Expand(env, input) == Expansion("", true)
  {
    RunAppend(env, Start, input[..i + 1], input[i + 1..]);
    assert input[..i + 1] + input[i + 1..] == input;
    HaltedStays(env, Run(env, Start, input[..i + 1]), input[i + 1..]);
  }

  /** Text without a '$' is copied to the output unchanged. */
  lemma {:induction false} PlainText(env: Env, s: Scan, text: string)
    requires !s.halted && !s.expectOpen && !s.parseVar && !s.parseLen
    requires '$' !in text
    ensures Run(env, s, text) == s.(output := s.output + text)
    decreases |text|
  {
    if text != [] {
      var init := text[..|text| - 1];
      assert '$' !in init by {
        forall i | 0 <= i < |init| ensures init[i] != '$' {
          assert init[i] == text[i];
        }
      }
      PlainText(env, s, init);
      assert text == init + [text[|text| - 1]];
    }
  }

  /** Inside a name, characters other than '$' and the closing bracket are
      added to the name. */
  lemma {:induction false} ReadName(env: Env, s: Scan, name: string, close: char)
    requires !s.halted && !s.expectOpen
    requires (s.parseVar && close == ')') || (!s.parseVar && s.parseLen && close == '}')
    requires '$' !in name && close !in name
    ensures Run(env, s, name) == s.(varStr := s.varStr + name)
    decreases |name|
  {
    if name != [] {
      var init := name[..|name| - 1];
      assert '$' !in init && close !in init by {
        forall i | 0 <= i < |init| ensures init[i] != '$' && init[i] != close {
          assert init[i] == name[i];
        }
      }
      ReadName(env, s, init, close);
      assert name == init + [name[|name| - 1]];
    }
  }

  /** An input without a '$' expands to itself and does not fail. */
  lemma NoDollarUnchanged(env: Env, input: string)
    requires '$' !in input
    ensures Expand(env, input) == Expansion(input, false)
  {
    PlainText(env, Start, input);
  }

  /** `$(name)` between plain text expands to the variable's value there,
      and fails exactly when the variable does. */
  lemma {:induction false} ExpandsVariable(env: Env, before: string, name: string, after: string)
    requires '$' !in before && '$' !in after && '$' !in name && ')' !in name
    ensures var e := Variable(env, name);
      Expand(env, before + "$(" + name + ")" + after) == Expansion(before + e.text + after, e.fails)
  {
    var e := Variable(env, name);
    var s0 := Start.(output := before);
    var s1 := s0.(parseVar := true);
    var s2 := s1.(varStr := name);
    var s3 := Start.(output := before + e.text, varStr := name, failed := e.fails);
    assert Run(env, Start, before + "$(") == s1 by {
      PlainText(env, Start, before);
      RunTwo(env, s0, '$', '(');
      RunAppend(env, Start, before, "$(");
    }
    assert Run(env, Start, before + "$(" + name) == s2 by {
      ReadName(env, s1, name, ')');
      RunAppend(env, Start, before + "$(", name);
    }
    assert Run(env, Start, before + "$(" + name + ")") == s3 by {
      RunOne(env, s2, ')');
      RunAppend(env, Start, before + "$(" + name, ")");
    }
    assert Run(env, Start, before + "$(" + name + ")" + after) == s3.(output := before + e.text + after) by {
      PlainText(env, s3, after);
      RunAppend(env, Start, before + "$(" + name + ")", after);
    }
  }

  /** `${name}` between plain text expands to the length of the array named
      by the lower-cased name; a missing array fails the whole expansion. */
  lemma {:induction false} ExpandsLength(env: Env, before: string, name: string, after: string)
    requires '$' !in before && '$' !in after && '$' !in name && '}' !in name
    ensures Expand(env, before + "${" + name + "}" + after) ==
      if Lower(name) in env.arrays then Expansion(before + NatToString(|env.arrays[Lower(name)]|) + after, false)
      else Expansion("", true)
  {
    var s0 := Start.(output := before);
    var s1 := s0.(parseLen := true);
    var s2 := s1.(varStr := name);
    var s3 := Step(env, s2, '}');
    assert Run(env, Start, before + "${") == s1 by {
      PlainText(env, Start, before);
      RunTwo(env, s0, '$', '{');
      RunAppend(env, Start, before, "${");
    }
    assert Run(env, Start, before + "${" + name) == s2 by {
      ReadName(env, s1, name, '}');
      RunAppend(env, Start, before + "${", name);
    }
    assert Run(env, Start, before + "${" + name + "}") == s3 by {
      RunOne(env, s2, '}');
      RunAppend(env, Start, before + "${" + name, "}");
    }
    RunAppend(env, Start, before + "${" + name + "}", after);
    if Lower(name) in env.arrays {
      PlainText(env, s3, after);
    } else {
      HaltedStays(env, s3, after);
    }
  }

  /** A '$' followed by anything but '(', '{' or another '$' empties the
      expansion and fails it, whatever comes before or after. */
  lemma {:induction false} BadDollarFails(env: Env, before: string, c: char, after: string)
    requires c != '(' && c != '{' && c != '$'
    ensures Expand(env, before + ['$', c] + after) == Expansion("", true)
  {
    var s := Run(env, Start, before);
    var s1 := Step(env, Step(env, s, '$'), c);
    assert s1.halted;
    assert Run(env, Start, before + ['$', c]) == s1 by {
      RunTwo(env, s, '$', c);
      RunAppend(env, Start, before, ['$', c]);
    }
    assert Run(env, Start, before + ['$', c] + after) == s1 by {
      RunAppend(env, Start, before + ['$', c], after);
      HaltedStays(env, s1, after);
    }
  }

  /** A `$(` whose name runs to the end of the input empties the expansion
      and fails it. */
  lemma {:induction false} UnterminatedVariableFails(env: Env, before: string, name: string)
    requires '$' !in name && ')' !in name
    ensures Expand(env, before + "$(" + name) == Expansion("", true)
  {
    var s := Run(env, Start, before);
    var s1 := Step(env, Step(env, s, '$'), '(');
    assert Run(env, Start, before + "$(") == s1 by {
      RunTwo(env, s, '$', '(');
      RunAppend(env, Start, before, "$(");
    }
    RunAppend(env, Start, before + "$(", name);
    if s.halted {
      HaltedStays(env, s1, name);
    } else {
      ReadName(env, s1, name, ')');
    }
  }

  /** A `${` whose name runs to the end of the input is dropped: the text
      before it is kept and the group does not fail. */
  lemma {:induction false} UnterminatedLengthDropped(env: Env, before: string, name: string)
    requires '$' !in before && '$' !in name && '}' !in name
    ensures Expand(env, before + "${" + name) == Expansion(before, false)
  {
    var s0 := Start.(output := before);
    var s1 := s0.(parseLen := true);
    assert Run(env, Start, before + "${") == s1 by {
      PlainText(env, Start, before);
      RunTwo(env, s0, '$', '{');
      RunAppend(env, Start, before, "${");
    }
    assert Run(env, Start, before + "${" + name) == s1.(varStr := name) by {
      ReadName(env, s1, name, '}');
      RunAppend(env, Start, before + "${", name);
    }
  }

  /** A '$' at the very end is dropped without failing. */
  lemma TrailingDollarDropped(env: Env, before: string)
    requires '$' !in before
    ensures Expand(env, before + "$") == Expansion(before, false)
  {
    PlainText(env, Start, before);
    assert (before + "$")[..|before|] == before;
  }

  // ---------------------------------------------------------------------
  // Enum expansion

  /** A member of an `int` enum: its name and its value. */
  datatype EnumMember = EnumMember(name: string, value: int)

  /** A 32-bit value read as unsigned: the order `Enum.GetValues` lists
      the members in. */
  function Unsigned(v: int): int {
    if v < 0 then v + 0x1_0000_0000 else v
  }

  /** The members of an `int` enum in the order `Enum.GetValues` lists
      them: at least one, each name a C# identifier (so it starts with a
      letter or '_'), each value within 32 bits, in ascending unsigned
      order. */
  predicate IsEnum(members: seq<EnumMember>) {
    members != [] &&
    (forall i :: 0 <= i < |members| ==>
      members[i].name != [] && (IsLetter(members[i].name[0]) || members[i].name[0] == '_') &&
      Int32Min <= members[i].value <= Int32Max) &&
    (forall i, j :: 0 <= i < j < |members| ==> Unsigned(members[i].value) <= Unsigned(members[j].value))
  }

  /** The position of the first member, from `from` on, whose name equals
      `name` ignoring case. */
  function FirstMatch(members: seq<EnumMember>, name: string, from: nat): (r: Option<nat>)
    ensures r.Some? ==> from <= r.value < |members| && EqualsIgnoreCase(members[r.value].name, name)
    ensures r.Some? ==> forall j :: from <= j < r.value ==> !EqualsIgnoreCase(members[j].name, name)
    ensures r.None? ==> forall j :: from <= j < |members| ==> !EqualsIgnoreCase(members[j].name, name)
    decreases |members| - from
  {
    if from >= |members| then None
    else if EqualsIgnoreCase(members[from].name, name) then Some(from)
    else FirstMatch(members, name, from + 1)
  }

  /** A 32-bit value as its bit pattern. */
  function ToBits(v: int): bv32
    requires Int32Min <= v <= Int32Max
  {
    Unsigned(v) as bv32
  }

  /** A bit pattern as a 32-bit value. */
  function FromBits(b: bv32): (v: int)
    ensures Int32Min <= v <= Int32Max
  {
    if b as int > Int32Max then b as int - 0x1_0000_0000 else b as int
  }

  /** `a | b` on 32-bit values. */
  function Or32(a: int, b: int): (r: int)
    requires Int32Min <= a <= Int32Max && Int32Min <= b <= Int32Max
    ensures Int32Min <= r <= Int32Max
  {
    FromBits(ToBits(a) | ToBits(b))
  }

  /** The value a comma-separated list of names stands for: every piece,
      trimmed, must name a member ignoring case, and the members' values
      are or-ed together (`0 | v` being `v`, a single name gives its own
      value). */
  function NamesValue(members: seq<EnumMember>, pieces: seq<string>): (r: Option<int>)
    requires IsEnum(members) && pieces != []
    ensures r.Some? <==> forall k :: 0 <= k < |pieces| ==> FirstMatch(members, Trim(pieces[k]), 0).Some?
    ensures r.Some? ==> Int32Min <= r.value <= Int32Max
    decreases |pieces|
  {
    var m := FirstMatch(members, Trim(pieces[0]), 0);
    if m.None? then None
    else
      var v := members[m.value].value;
      if |pieces| == 1 then Some(v)
      else
        var rest := NamesValue(members, pieces[1..]);
        assert forall k :: 1 <= k < |pieces| ==> pieces[1..][k - 1] == pieces[k];
        if rest.None? then None else Some(Or32(v, rest.value))
  }

  /** `Enum.TryParse(s, true, out v)` for an `int` enum. White space around
      the input does not count, and a blank input fails. An input that
      starts with a digit or a sign is read as a 32-bit number, whether or
      not a member has that value. Any other input is a comma-separated
      list of names, matched ignoring case. (.NET turns to names when such
      an input is not a well-formed number, but that never finds one:
      NumericFallbackFails.) */
  function EnumTryParse(members: seq<EnumMember>, s: string): (r: Option<int>)
    requires IsEnum(members)
    ensures r.Some? ==> Int32Min <= r.value <= Int32Max
    ensures Trim(s) == [] ==> r.None?
  {
    var t := Trim(s);
    if t == [] then None
    else if IsDigit(t[0]) || t[0] == '-' || t[0] == '+' then TryParseInt(t)
    else NamesValue(members, Split(t, ','))
  }

  /** What `TryParse` leaves in its `out` argument: the value read, or the
      default value 0 of the enum when the input does not parse. */
  function ParsedOrZero(members: seq<EnumMember>, s: string): int
    requires IsEnum(members)
  {
    match EnumTryParse(members, s)
    case Some(v) => v
    case None => 0
  }

  /** No member's name matches a string that starts with a digit or a
      sign: a C# name starts with a letter or '_'. */
  lemma NumericNeverNames(members: seq<EnumMember>, p: string)
    requires IsEnum(members) && p != [] && (IsDigit(p[0]) || p[0] == '-' || p[0] == '+')
    ensures FirstMatch(members, p, 0).None?
  {
    forall j | 0 <= j < |members| ensures !EqualsIgnoreCase(members[j].name, p) {
      var n := members[j].name;
      assert Lower(n)[0] == ToLower(n[0]) && Lower(p)[0] == ToLower(p[0]);
    }
  }

  /** A trimmed input that starts with a digit or a sign names no member,
      so reading it as names, as .NET does after a malformed number,
      always fails. */
  lemma NumericFallbackFails(members: seq<EnumMember>, t: string)
    requires IsEnum(members) && t != [] && (IsDigit(t[0]) || t[0] == '-' || t[0] == '+')
    ensures NamesValue(members, Split(t, ',')).None?
  {
    var p := Split(t, ',')[0];
    assert p != [] && p[0] == t[0];
    assert LeadingSpaces(p) == 0;
    assert TrailingSpaces(p) < |p|;
    var q := Trim(p);
    assert q != [] && q[0] == p[0];
    NumericNeverNames(members, q);
  }

  /** The name inside the first complete `$(name)` of an input, as the
      enum scan reads it: a '$' must be followed by '(' (otherwise the scan
      stops), the name runs up to the next ')', and a scan that reaches
      the end first finds no name. */
  function VariableName(input: string, expectOpen: bool, parseVar: bool, varStr: string): Option<string>
    decreases |input|
  {
    if input == [] then None
    else
      var chr := input[0];
      if chr == '$' then VariableName(input[1..], true, parseVar, varStr)
      else if expectOpen then
        if chr == '(' then VariableName(input[1..], false, true, "") else None
      else if parseVar then
        if chr == ')' then Some(varStr)
        else VariableName(input[1..], false, true, varStr + [chr])
      else VariableName(input[1..], false, false, varStr)
  }

  /** The enum value an input gives: the first value `Enum.GetValues`
      lists, unless the input has a complete `$(name)`, whose name replaces
      it by what `TryParse` leaves: the value read, or 0 when the name does
      not parse. */
  function EnumFrom(members: seq<EnumMember>, input: string): (r: int)
    requires IsEnum(members)
    ensures Int32Min <= r <= Int32Max
    ensures r == members[0].value || r == 0 || exists s :: EnumTryParse(members, s) == Some(r)
  {
    match VariableName(input, false, false, "")
    case None => members[0].value
    case Some(name) => ParsedOrZero(members, name)
  }

  /** Reads the enum value an input names. */
  method ExpandEnum(members: seq<EnumMember>, input: string) returns (v: int)
    requires IsEnum(members)
    ensures v == EnumFrom(members, input)
    ensures Int32Min <= v <= Int32Max
  {
    v := members[0].value;
    var expectOpen, parseVar, varStr := false, false, "";
    var i := 0;
    while i < |input|
      invariant 0 <= i <= |input|
      invariant v == members[0].value
      invariant VariableName(input[i..], expectOpen, parseVar, varStr) == VariableName(input, false, false, "")
    {
      var chr := input[i];
      assert input[i..][1..] == input[i + 1..];
      if chr == '$' {
        expectOpen := true;
      } else if expectOpen {
        if chr == '(' {
          varStr := "";
          parseVar := true;
          expectOpen := false;
        } else {
          return;
        }
      } else if parseVar {
        if chr == ')' {
          var parsed := EnumTryParse(members, varStr);
          v := if parsed.Some? then parsed.value else 0;
          return;
        } else {
          varStr := varStr + [chr];
        }
      }
      i := i + 1;
    }
  }

  lemma NotInTail(s: string, c: char)
    requires s != [] && c !in s
    ensures c !in s[1..]
  {
    forall i | 0 <= i < |s[1..]| ensures s[1..][i] != c {
      assert s[1..][i] == s[i + 1];
    }
  }

  /** Without a '$' the scan finds no variable. */
  lemma {:induction false} ScanWithoutDollar(input: string, varStr: string)
    requires '$' !in input
    ensures VariableName(input, false, false, varStr).None?
    decreases |input|
  {
    if input != [] {
      assert input[0] != '$';
      NotInTail(input, '$');
      ScanWithoutDollar(input[1..], varStr);
    }
  }

  /** An input without a '$' gives the first value `Enum.GetValues` lists. */
  lemma EnumWithoutVariable(members: seq<EnumMember>, input: string)
    requires IsEnum(members) && '$' !in input
    ensures EnumFrom(members, input) == members[0].value
  {
    ScanWithoutDollar(input, "");
  }

  /** Inside `$(`, the name is everything up to the next ')'. */
  lemma {:induction false} EnumReadsName(name: string, rest: string, varStr: string)
    requires '$' !in name && ')' !in name
    ensures VariableName(name + ")" + rest, false, true, varStr) == Some(varStr + name)
    decreases |name|
  {
    if name == [] {
      assert (name + ")" + rest)[0] == ')';
      assert varStr + name == varStr;
    } else {
      var input := name + ")" + rest;
      assert input[0] == name[0];
      assert input[1..] == name[1..] + ")" + rest;
      NotInTail(name, '$');
      NotInTail(name, ')');
      EnumReadsName(name[1..], rest, varStr + [name[0]]);
      assert varStr + [name[0]] + name[1..] == varStr + name;
    }
  }

  /** After plain text, `$(name)` is the variable the scan finds. */
  lemma {:induction false} ScanFindsVariable(before: string, name: string, after: string)
    requires '$' !in before && '$' !in name && ')' !in name
    ensures VariableName(before + "$(" + name + ")" + after, false, false, "") == Some(name)
    decreases |before|
  {
    var input := before + "$(" + name + ")" + after;
    if before == [] {
      assert input[0] == '$' && input[1..][0] == '(';
      assert input[1..][1..] == name + ")" + after;
      EnumReadsName(name, after, "");
      assert "" + name == name;
    } else {
      assert input[0] == before[0] && input[0] != '$';
      assert input[1..] == before[1..] + "$(" + name + ")" + after;
      NotInTail(before, '$');
      ScanFindsVariable(before[1..], name, after);
    }
  }

  /** `$(name)` after plain text gives what `TryParse` leaves for the name;
      what follows does not count. */
  lemma EnumOfVariable(members: seq<EnumMember>, before: string, name: string, after: string)
    requires IsEnum(members) && '$' !in before && '$' !in name && ')' !in name
    ensures EnumFrom(members, before + "$(" + name + ")" + after) == ParsedOrZero(members, name)
  {
    ScanFindsVariable(before, name, after);
  }

  /** A member's name, in any case and with white space around it, parses
      to that member's value when no member listed before it has the same
      name ignoring case. */
  lemma MemberNameParses(members: seq<EnumMember>, k: nat, name: string, pre: string, post: string)
    requires IsEnum(members) && k < |members|
    requires EqualsIgnoreCase(name, members[k].name)
    requires forall j :: 0 <= j < k ==> !EqualsIgnoreCase(members[j].name, members[k].name)
    requires ',' !in name && IsBlank(pre) && IsBlank(post)
    requires name == [] || !IsSpace(name[|name| - 1])
    ensures EnumTryParse(members, pre + name + post) == Some(members[k].value)
  {
    NameStartsLikeMember(members, k, name);
    TrimAround(pre, name, post);
    var t := Trim(pre + name + post);
    assert t == name;
    assert EnumTryParse(members, pre + name + post) == NamesValue(members, Split(name, ','));
    SplitWithout(name, ',');
    FirstMatchOf(members, k, name);
  }

  /** A name equal to a member's ignoring case starts with a letter or '_',
      as the member's does: not with white space, a digit or a sign. */
  lemma NameStartsLikeMember(members: seq<EnumMember>, k: nat, name: string)
    requires IsEnum(members) && k < |members|
    requires EqualsIgnoreCase(name, members[k].name)
    ensures name != [] && (IsLetter(name[0]) || name[0] == '_')
  {
    var n := members[k].name;
    assert n != [] && (IsLetter(n[0]) || n[0] == '_');
    assert |Lower(name)| == |Lower(n)|;
    assert ToLower(name[0]) == Lower(name)[0] == Lower(n)[0] == ToLower(n[0]);
  }

  /** A name equal to the k-th member's ignoring case, and to no earlier
      member's, is matched at k. */
  lemma FirstMatchIsMember(members: seq<EnumMember>, k: nat, name: string)
    requires k < |members|
    requires EqualsIgnoreCase(name, members[k].name)
    requires forall j :: 0 <= j < k ==> !EqualsIgnoreCase(members[j].name, members[k].name)
    ensures FirstMatch(members, name, 0) == Some(k)
  {
    var m := FirstMatch(members, name, 0);
    if m.Some? && m.value < k {
      assert EqualsIgnoreCase(members[m.value].name, members[k].name);
    }
  }

  /** The single name, already trimmed, is looked up as the k-th member. */
  lemma FirstMatchOf(members: seq<EnumMember>, k: nat, name: string)
    requires IsEnum(members) && k < |members|
    requires EqualsIgnoreCase(name, members[k].name)
    requires forall j :: 0 <= j < k ==> !EqualsIgnoreCase(members[j].name, members[k].name)
    requires name != [] && !IsSpace(name[0]) && !IsSpace(name[|name| - 1])
    ensures NamesValue(members, [name]) == Some(members[k].value)
  {
    TrimUntouched(name);
    assert [name][0] == name;
    FirstMatchIsMember(members, k, name);
  }

  /** The value of a list of names is its first name's value or-ed with
      the value of the rest. */
  lemma NamesValueCons(members: seq<EnumMember>, pieces: seq<string>, k: nat, v: int)
    requires IsEnum(members) && |pieces| > 1
    requires FirstMatch(members, Trim(pieces[0]), 0) == Some(k)
    requires NamesValue(members, pieces[1..]) == Some(v)
    ensures NamesValue(members, pieces) == Some(Or32(members[k].value, v))
  {
  }

  /** A member's name followed by a comma and a list that parses to `v`
      parses to the member's value or-ed with `v`. */
  lemma MemberListParses(members: seq<EnumMember>, k: nat, name: string, rest: string, v: int)
    requires IsEnum(members) && k < |members|
    requires EqualsIgnoreCase(name, members[k].name)
    requires forall j :: 0 <= j < k ==> !EqualsIgnoreCase(members[j].name, members[k].name)
    requires ',' !in name && rest != [] && !IsSpace(rest[|rest| - 1])
    requires name == [] || !IsSpace(name[|name| - 1])
    requires NamesValue(members, Split(rest, ',')) == Some(v)
    ensures EnumTryParse(members, name + [','] + rest) == Some(Or32(members[k].value, v))
  {
    NameStartsLikeMember(members, k, name);
    var s := name + [','] + rest;
    assert s[0] == name[0] && s[|s| - 1] == rest[|rest| - 1];
    TrimUntouched(s);
    SplitCons(name, ',', rest);
    TrimUntouched(name);
    FirstMatchIsMember(members, k, name);
    var pieces := [name] + Split(rest, ',');
    assert pieces[0] == name && pieces[1..] == Split(rest, ',');
    NamesValueCons(members, pieces, k, v);
  }

  /** Any 32-bit number, with white space around it, parses to itself,
      whether or not a member has that value. */
  lemma NumberParses(members: seq<EnumMember>, n: int, pre: string, post: string)
    requires IsEnum(members) && Int32Min <= n <= Int32Max
    requires IsBlank(pre) && IsBlank(post)
    ensures EnumTryParse(members, pre + IntToString(n) + post) == Some(n)
  {
    var s := IntToString(n);
    var digits := NatToString(if n < 0 then -n else n);
    assert s[|s| - 1] == digits[|digits| - 1];
    TrimAround(pre, s, post);
    TryParseIntToString(n);
  }

  /** A name that matches no member ignoring case does not parse. */
  lemma UnknownNameFails(members: seq<EnumMember>, name: string)
    requires IsEnum(members) && name != [] && !IsSpace(name[0]) && !IsSpace(name[|name| - 1])
    requires !IsDigit(name[0]) && name[0] != '-' && name[0] != '+' && ',' !in name
    requires forall j :: 0 <= j < |members| ==> !EqualsIgnoreCase(members[j].name, name)
    ensures EnumTryParse(members, name).None?
  {
    TrimUntouched(name);
    SplitWithout(name, ',');
    assert Split(name, ',')[0] == name;
  }

  /** `OniomLayerID` as `Enum.GetValues` lists it. */
  const OniomLayerIDs: seq<EnumMember> := [EnumMember("REAL", 0), EnumMember("INTERMEDIATE", 1), EnumMember("MODEL", 2)]

  lemma OniomLayerIsEnum()
    ensures IsEnum(OniomLayerIDs)
  {
  }

  /** A name padded with spaces, as a macro may write it. */
  const PaddedModel: string := " MODEL "

  /** " MODEL " parses to MODEL: the name is trimmed. */
  lemma PaddedNameParses()
    ensures EnumTryParse(OniomLayerIDs, PaddedModel) == Some(2)
  {
    assert " " + "MODEL" + " " == PaddedModel;
    OniomLayerIsEnum();
    MemberNameParses(OniomLayerIDs, 2, "MODEL", " ", " ");
  }

  /** "$( MODEL )" gives MODEL. */
  lemma PaddedNameExample(input: string)
    requires input == "$(" + PaddedModel + ")"
    ensures EnumFrom(OniomLayerIDs, input) == 2
  {
    OniomLayerIsEnum();
    PaddedNameParses();
    PaddedModelIsVariable(input);
  }

  lemma PaddedModelIsVariable(input: string)
    requires input == "$(" + PaddedModel + ")"
    ensures VariableName(input, false, false, "") == Some(PaddedModel)
  {
    assert "" + "$(" + PaddedModel + ")" + "" == input;
    ScanFindsVariable("", PaddedModel, "");
  }

  /** "$(1)" gives INTERMEDIATE, the member whose value is 1. */
  lemma NumberExample(input: string)
    requires input == "$(1)"
    ensures EnumFrom(OniomLayerIDs, input) == 1
  {
    assert IntToString(1) == "1";
    assert "" + "1" + "" == "1";
    assert "" + "$(" + "1" + ")" + "" == input;
    OniomLayerIsEnum();
    EnumOfVariable(OniomLayerIDs, "", "1", "");
    NumberParses(OniomLayerIDs, 1, "", "");
  }

  /** "$(99)" gives the value 99, which no member has. */
  lemma UndefinedNumberExample(input: string)
    requires input == "$(99)"
    ensures EnumFrom(OniomLayerIDs, input) == 99
  {
    assert IntToString(99) == "99";
    assert "" + "99" + "" == "99";
    assert "" + "$(" + "99" + ")" + "" == input;
    OniomLayerIsEnum();
    EnumOfVariable(OniomLayerIDs, "", "99", "");
    NumberParses(OniomLayerIDs, 99, "", "");
  }

  /** "QM" is no `OniomLayerID` name in any case (every name is longer),
      and it reads as a name: trimmed, no comma, no '$' or ')'. */
  lemma QMIsNoLayer(name: string)
    requires name == "QM"
    ensures forall j :: 0 <= j < |OniomLayerIDs| ==> !EqualsIgnoreCase(OniomLayerIDs[j].name, name)
    ensures name != [] && !IsSpace(name[0]) && !IsSpace(name[|name| - 1])
    ensures !IsDigit(name[0]) && name[0] != '-' && name[0] != '+'
    ensures ',' !in name && '$' !in name && ')' !in name
  {
    forall j | 0 <= j < |OniomLayerIDs| ensures !EqualsIgnoreCase(OniomLayerIDs[j].name, name) {
      assert |Lower(OniomLayerIDs[j].name)| != |Lower(name)|;
    }
  }

  /** "$(QM)" names no member, so the result is TryParse's 0. */
  lemma UnknownNameExample(unknown: string)
    requires unknown == "$(QM)"
    ensures EnumFrom(OniomLayerIDs, unknown) == 0
  {
    OniomLayerIsEnum();
    var name := "QM";
    QMIsNoLayer(name);
    UnknownNameFails(OniomLayerIDs, name);
    ScanFindsVariable("", name, "");
    assert "" + "$(" + name + ")" + "" == unknown;
  }

  /** "MODEL" without '$' is no variable: the first value, REAL, stays. */
  lemma PlainTextExample(plain: string)
    requires plain == "MODEL"
    ensures EnumFrom(OniomLayerIDs, plain) == 0
  {
    OniomLayerIsEnum();
    EnumWithoutVariable(OniomLayerIDs, plain);
  }

  // ---------------------------------------------------------------------
  // Mutation codes

  datatype MutationError = UnknownOldResidue | UnknownTarget

  /** The code of a mutation: the one-letter code of the old residue's
      name, the residue number, and the one-letter code of the target
      name; a name without a one-letter code is an error. */
  function MutationCode(oneLetter: map<string, string>, id: ResidueID, oldName: string, target: string): (r: Result<string, MutationError>)
    ensures r == Err(UnknownOldResidue) <==> oldName !in oneLetter
    ensures r == Err(UnknownTarget) <==> oldName in oneLetter && target !in oneLetter
  {
    if oldName !in oneLetter then Err(UnknownOldResidue)
    else if target !in oneLetter then Err(UnknownTarget)
    else Ok(oneLetter[oldName] + IntToString(id.residueNumber) + oneLetter[target])
  }

  /** With one-letter codes of one character, a mutation code reads back
      as the old code, the residue number and the target code. */
  lemma MutationCodeReadsBack(oneLetter: map<string, string>, id: ResidueID, oldName: string, target: string)
    requires oldName in oneLetter && target in oneLetter
    requires |oneLetter[oldName]| == 1 && |oneLetter[target]| == 1
    requires 0 <= id.residueNumber <= Int32Max
    ensures var code := MutationCode(oneLetter, id, oldName, target).value;
      2 < |code| && [code[0]] == oneLetter[oldName] && [code[|code| - 1]] == oneLetter[target]
      && TryParseInt(code[1..|code| - 1]) == Some(id.residueNumber)
  {
    var code := MutationCode(oneLetter, id, oldName, target).value;
    var number := IntToString(id.residueNumber);
    assert code == oneLetter[oldName] + number + oneLetter[target];
    assert code[1..|code| - 1] == number;
    TryParseIntToString(id.residueNumber);
  }

  // ---------------------------------------------------------------------
  // Step checks

  /** Why a `for`, `elementAt` or `formArray` step fails. */
  datatype StepError =
    | EmptyVariable | BadStart | BadStep | EmptyStop | BadStop
    | StepNotPositive | StepNotNegative
    | EmptyArrayID | ArrayNotFound | EmptyIndex | BadIndex | IndexOutOfRange
    | EmptyDelimiter | DelimiterLength

  /** A `for` loop: the lower-cased loop variable, the first value, the
      step and the bound the values stay below. */
  datatype Loop = Loop(variable: string, start: int, step: int, stop: int)

  /** An optional integer attribute: the default when blank, else its
      value, or nothing when it is not a number. */
  function IntOr(s: string, default: int): (r: Option<int>)
    ensures IsBlank(s) ==> r == Some(default)
    ensures !IsBlank(s) ==> r == TryParseInt(s)
  {
    if IsBlank(s) then Some(default) else TryParseInt(s)
  }

  /** The checks of a `for` step once its start and step are read: the
      variable must not be blank, the stop must be a number, and the step
      must move from the start towards the stop. */
  function CheckLoop(varStr: string, start: Option<int>, step: Option<int>, stopStr: string): (r: Result<Loop, StepError>)
    ensures r.Ok? ==> (r.value.variable == Lower(varStr) && !IsBlank(r.value.variable)
      && Some(r.value.start) == start && Some(r.value.step) == step && Some(r.value.stop) == TryParseInt(stopStr))
    ensures r.Ok? ==> ((r.value.stop > r.value.start ==> r.value.step >= 1)
      && (r.value.start > r.value.stop ==> r.value.step <= -1))
    ensures r == Err(StepNotPositive) <==> (!IsBlank(Lower(varStr)) && start.Some? && step.Some?
      && !IsBlank(stopStr) && TryParseInt(stopStr).Some?
      && TryParseInt(stopStr).value > start.value && step.value < 1)
  {
    var name := Lower(varStr);
    if IsBlank(name) then Err(EmptyVariable)
    else if start.None? then Err(BadStart)
    else if step.None? then Err(BadStep)
    else if IsBlank(stopStr) then Err(EmptyStop)
    else if TryParseInt(stopStr).None? then Err(BadStop)
    else
      var stop := TryParseInt(stopStr).value;
      if stop > start.value && step.value < 1 then Err(StepNotPositive)
      else if start.value > stop && step.value > -1 then Err(StepNotNegative)
      else Ok(Loop(name, start.value, step.value, stop))
  }

  /** The `for` step's reading of its attributes: start 0 and step 1 when
      blank, the stop required. */
  function ParseLoop(varStr: string, startStr: string, stepStr: string, stopStr: string): (r: Result<Loop, StepError>)
    ensures r.Ok? ==> (Some(r.value.start) == (if IsBlank(startStr) then Some(0) else TryParseInt(startStr))
      && Some(r.value.step) == (if IsBlank(stepStr) then Some(1) else TryParseInt(stepStr)))
  {
    CheckLoop(varStr, IntOr(startStr, 0), IntOr(stepStr, 1), stopStr)
  }

  /** The `for` step's reading as written: a non-blank step attribute is
      parsed from the start attribute's text. */
  function ParseLoopAsWritten(varStr: string, startStr: string, stepStr: string, stopStr: string): (r: Result<Loop, StepError>)
    ensures r.Ok? && !IsBlank(stepStr) ==> Some(r.value.step) == TryParseInt(startStr)
  {
    CheckLoop(varStr, IntOr(startStr, 0), if IsBlank(stepStr) then Some(1) else TryParseInt(startStr), stopStr)
  }

  /** A loop from 0 to 10 by 2 is refused as written, since the step is
      read as 0; read from its own attribute it runs 0, 2, 4, 6, 8. */
  lemma StepReadFromStart()
    ensures ParseLoopAsWritten("i", "0", "2", "10") == Err(StepNotPositive)
    ensures ParseLoop("i", "0", "2", "10") == Ok(Loop("i", 0, 2, 10))
    ensures Iterations(0, 2, 10) == [0, 2, 4, 6, 8]
  {
    LoopLiterals();
    assert ParseLoopAsWritten("i", "0", "2", "10") == CheckLoop("i", Some(0), Some(0), "10");
    assert ParseLoop("i", "0", "2", "10") == CheckLoop("i", Some(0), Some(2), "10");
    EvenIterations();
  }

  lemma EvenIterations()
    ensures Iterations(0, 2, 10) == [0, 2, 4, 6, 8]
  {
    var tail := Iterations(10, 2, 10);
    assert tail == [];
    IterationsFirst(8, 2, 10);
    IterationsFirst(6, 2, 10);
    IterationsFirst(4, 2, 10);
    IterationsFirst(2, 2, 10);
    IterationsFirst(0, 2, 10);
    assert [0] + ([2] + ([4] + ([6] + ([8] + tail)))) == [0, 2, 4, 6, 8];
  }

  lemma IterationsFirst(start: int, step: int, stop: int)
    requires start < stop && step >= 1
    ensures Iterations(start, step, stop) == [start] + Iterations(start + step, step, stop)
  {
  }

  lemma LoopLiterals()
    ensures IntOr("0", 0) == Some(0) && TryParseInt("0") == Some(0) && !IsBlank("0")
    ensures IntOr("2", 1) == Some(2) && !IsBlank("2")
    ensures !IsBlank("10") && TryParseInt("10") == Some(10)
    ensures Lower("i") == "i" && !IsBlank("i")
  {
    ReadsDigit(0);
    ReadsDigit(2);
    ReadsTen();
    assert !IsSpace("i"[0]);
  }

  lemma ReadsTen()
    ensures !IsBlank("10") && TryParseInt("10") == Some(10)
  {
    assert !IsSpace("10"[0]);
    assert IntToString(10) == NatToString(1) + [DigitChar(0)] == "10";
    TryParseIntToString(10);
  }

  lemma ReadsDigit(d: nat)
    requires d < 10
    ensures var s := [DigitChar(d)]; !IsBlank(s) && TryParseInt(s) == Some(d) && IntOr(s, 1) == Some(d) && IntOr(s, 0) == Some(d)
  {
    assert !IsSpace([DigitChar(d)][0]);
    assert IntToString(d) == [DigitChar(d)];
    TryParseIntToString(d);
  }

  /** The values a `for` loop gives its variable: from the start, by the
      step, while below the stop. */
  function Iterations(start: int, step: int, stop: int): (r: seq<int>)
    requires start >= stop || step >= 1
    ensures r == [] <==> start >= stop
    decreases stop - start
  {
    if start >= stop then [] else [start] + Iterations(start + step, step, stop)
  }

  /** Taking one more value of a `for` loop keeps the values taken
      followed by those still to come equal to all of them. */
  lemma IterationsNext(taken: seq<int>, start: int, i: int, step: int, stop: int)
    requires i < stop && step >= 1
    requires taken + Iterations(i, step, stop) == Iterations(start, step, stop)
    ensures (taken + [i]) + Iterations(i + step, step, stop) == Iterations(start, step, stop)
  {
    var rest := Iterations(i + step, step, stop);
    assert Iterations(i, step, stop) == [i] + rest;
    assert (taken + [i]) + rest == taken + ([i] + rest);
  }

  /** A loop that runs starts at the start, and its last value is the last
      one below the stop. */
  lemma {:induction false} IterationsEnds(start: int, step: int, stop: int)
    requires start < stop && step >= 1
    ensures var r := Iterations(start, step, stop);
      r[0] == start && r[|r| - 1] < stop && r[|r| - 1] + step >= stop
    decreases stop - start
  {
    var rest := Iterations(start + step, step, stop);
    var r := Iterations(start, step, stop);
    assert r == [start] + rest;
    if rest != [] {
      IterationsEnds(start + step, step, stop);
      assert r[|r| - 1] == rest[|rest| - 1];
    }
  }

  /** Every value of a `for` loop lies from the start up to, not including,
      the stop. */
  lemma {:induction false} IterationsBounded(start: int, step: int, stop: int, k: nat)
    requires start >= stop || step >= 1
    requires k < |Iterations(start, step, stop)|
    ensures start <= Iterations(start, step, stop)[k] < stop
    decreases stop - start
  {
    if k > 0 {
      IterationsBounded(start + step, step, stop, k - 1);
    }
  }

  /** Each value of a `for` loop after the first is the one before it plus
      the step. */
  lemma {:induction false} IterationsStep(start: int, step: int, stop: int, k: nat)
    requires start >= stop || step >= 1
    requires 0 < k < |Iterations(start, step, stop)|
    ensures Iterations(start, step, stop)[k] == Iterations(start, step, stop)[k - 1] + step
    decreases stop - start
  {
    var rest := Iterations(start + step, step, stop);
    if k > 1 {
      IterationsStep(start + step, step, stop, k - 1);
    }
  }

  /** The checks of an `elementAt` step: the lower-cased array ID and
      variable must not be blank, the array must exist, and the index must
      be a number within it. */
  datatype Element = Element(arrayID: string, variable: string, index: nat)

  function CheckElementAt(arrays: map<string, seq<string>>, idStr: string, varStr: string, indexStr: string): (r: Result<Element, StepError>)
    ensures r.Ok? ==> (r.value.arrayID == Lower(idStr) && r.value.arrayID in arrays
      && r.value.index < |arrays[r.value.arrayID]| && Some(r.value.index as int) == TryParseInt(indexStr)
      && r.value.variable == Lower(varStr) && !IsBlank(r.value.variable))
    ensures r == Err(IndexOutOfRange) <==> (!IsBlank(Lower(idStr)) && Lower(idStr) in arrays
      && !IsBlank(Lower(varStr)) && !IsBlank(indexStr) && TryParseInt(indexStr).Some?
      && (TryParseInt(indexStr).value < 0 || TryParseInt(indexStr).value >= |arrays[Lower(idStr)]|))
  {
    var id := Lower(idStr);
    if IsBlank(id) then Err(EmptyArrayID)
    else if id !in arrays then Err(ArrayNotFound)
    else if IsBlank(Lower(varStr)) then Err(EmptyVariable)
    else if IsBlank(indexStr) then Err(EmptyIndex)
    else if TryParseInt(indexStr).None? then Err(BadIndex)
    else
      var index := TryParseInt(indexStr).value;
      if |arrays[id]| <= index || index < 0 then Err(IndexOutOfRange)
      else Ok(Element(id, Lower(varStr), index))
  }

  /** The checks of a `formArray` step: the lower-cased array ID must not
      be blank and the delimiter must be exactly one non-blank character. */
  function CheckFormArray(idStr: string, delimiterStr: string): (r: Result<(string, char), StepError>)
    ensures r.Ok? <==> !IsBlank(Lower(idStr)) && !IsBlank(delimiterStr) && |delimiterStr| == 1
    ensures r.Ok? ==> r.value == (Lower(idStr), delimiterStr[0])
    ensures r == Err(DelimiterLength) <==> !IsBlank(Lower(idStr)) && !IsBlank(delimiterStr) && |delimiterStr| != 1
  {
    if IsBlank(Lower(idStr)) then Err(EmptyArrayID)
    else if IsBlank(delimiterStr) then Err(EmptyDelimiter)
    else if |delimiterStr| != 1 then Err(DelimiterLength)
    else Ok((Lower(idStr), delimiterStr[0]))
  }

  /** The items of an array formed from `value`: the value is expanded,
      split on the delimiter, and each piece expanded again. */
  function FormedItems(env: Env, value: string, delimiter: char): (r: seq<string>)
    ensures |r| == |Split(Expand(env, value).text, delimiter)|
  {
    var pieces := Split(Expand(env, value).text, delimiter);
    seq(|pieces|, k requires 0 <= k < |pieces| => Expand(env, pieces[k]).text)
  }

  /** Whether forming the array fails the group: the value's expansion or
      one of the pieces' does. */
  predicate FormFails(env: Env, value: string, delimiter: char) {
    var pieces := Split(Expand(env, value).text, delimiter);
    Expand(env, value).fails || exists k :: 0 <= k < |pieces| && Expand(env, pieces[k]).fails
  }

  /** A value without variables forms the array of its pieces, which join
      back into the value. */
  lemma PlainArray(env: Env, value: string, delimiter: char)
    requires '$' !in value
    ensures FormedItems(env, value, delimiter) == Split(value, delimiter)
    ensures Join(FormedItems(env, value, delimiter), [delimiter]) == value
    ensures !FormFails(env, value, delimiter)
  {
    NoDollarUnchanged(env, value);
    var pieces := Split(value, delimiter);
    SplitKeepsAbsent(value, delimiter, '$');
    forall k | 0 <= k < |pieces|
      ensures Expand(env, pieces[k]) == Expansion(pieces[k], false)
    {
      NoDollarUnchanged(env, pieces[k]);
    }
    JoinSplit(value, delimiter);
  }

  // ---------------------------------------------------------------------
  // The macro group

  /** The state a macro group shares between its steps: the string
      variables and arrays by lower-cased name, the `failed` flag, and the
      settings directories. */
  class MacroGroup {
    var variables: map<string, string>
    var arrays: map<string, seq<string>>
    var failed: bool
    const paths: Paths

    function Environment(geometry: Option<GeometryView>): Env
      reads this
    {
      Env(variables, arrays, paths, geometry)
    }

    constructor (paths: Paths)
      ensures variables == map[] && arrays == map[] && !failed && this.paths == paths
    {
      variables, arrays, failed := map[], map[], false;
      this.paths := paths;
    }

    /** Sets the `failed` flag. */
    method Fail()
      modifies this
      ensures failed && variables == old(variables) && arrays == old(arrays)
    {
      failed := true;
    }

    /** The value of `$(name)`, failing the group for an unknown name. */
    method ExpandVariable(name: string, geometry: Option<GeometryView>) returns (value: string)
      modifies this
      ensures value == Variable(old(Environment(geometry)), name).text
      ensures failed == (old(failed) || Variable(old(Environment(geometry)), name).fails)
      ensures variables == old(variables) && arrays == old(arrays)
    {
      var key := Lower(name);
      if key in variables {
        return variables[key];
      }
      var p := paths.projectPath;
      if name == "PROJECT" {
        value := if EndsWithSlash(p) then p else p + "/";
      } else if name == "CHARGES_DIR" {
        value := if EndsWithSlash(paths.chargesDirectory) then paths.chargesDirectory else p + "/";
      } else if name == "SETTINGS_PATH" {
        value := if EndsWithSlash(paths.settingsPath) then paths.settingsPath else p + "/";
      } else if name == "DATA_PATH" {
        value := if EndsWithSlash(paths.dataPath) then paths.dataPath else p + "/";
      } else if name == "GEOMETRY" {
        value := "$(GEOMETRY)";
      } else if name == "CHAINS" {
        value := if geometry.None? then "" else Join(geometry.value.chainIDs, "-");
      } else if name == "RESIDUES" {
        if geometry.None? {
          failed := true;
          value := "";
        } else {
          value := Join(geometry.value.residueIDs, "-");
        }
      } else {
        failed := true;
        value := "";
      }
    }

    /** Expands the variables and array lengths in `input`. */
    method ExpandVariables(input: string, geometry: Option<GeometryView>) returns (output: string)
      modifies this
      ensures output == Expand(old(Environment(geometry)), input).text
      ensures failed == (old(failed) || Expand(old(Environment(geometry)), input).fails)
      ensures variables == old(variables) && arrays == old(arrays)
    {
      ghost var env := Environment(geometry);
      output := "";
      var expectOpen, parseVar, parseLen, varStr := false, false, false, "";
      ghost var scanFailed := false;
      var i := 0;
      while i < |input|
        invariant 0 <= i <= |input|
        invariant env == Environment(geometry)
        invariant Run(env, Start, input[..i]) == Scan(output, varStr, expectOpen, parseVar, parseLen, scanFailed, false)
        invariant failed == (old(failed) || scanFailed)
      {
        var chr := input[i];
        assert input[..i + 1] == input[..i] + [chr];
        if chr == '$' {
          expectOpen := true;
        } else if expectOpen {
          if chr == '(' {
            varStr := "";
            parseVar := true;
            expectOpen := false;
          } else if chr == '{' {
            varStr := "";
            parseLen := true;
            expectOpen := false;
          } else {
            Fail();
            Halted(env, input, i);
            return "";
          }
        } else if parseVar {
          if chr == ')' {
            var value := ExpandVariable(varStr, geometry);
            scanFailed := scanFailed || Variable(env, varStr).fails;
            output := output + value;
            parseVar := false;
          } else {
            varStr := varStr + [chr];
          }
        } else if parseLen {
          if chr == '}' {
            var key := Lower(varStr);
            if key !in arrays {
              Fail();
              Halted(env, input, i);
              return "";
            }
            output := output + NatToString(|arrays[key]|);
            parseLen := false;
          } else {
            varStr := varStr + [chr];
          }
        } else {
          output := output + [chr];
        }
        i := i + 1;
      }
      assert input[..i] == input;
      if parseVar {
        failed := true;
        return "";
      }
    }

    /** A `for` step as evidently intended (the corrected reading of
      `ParseLoop`, with the step taken from its own attribute): checks its
      attributes, then gives the loop variable each value in turn. */
    method ForLoop(varStr: string, startStr: string, stepStr: string, stopStr: string) returns (visited: seq<int>)
      modifies this
      ensures ParseLoop(varStr, startStr, stepStr, stopStr).Err? ==>
        failed && visited == [] && variables == old(variables)
      ensures ParseLoop(varStr, startStr, stepStr, stopStr).Ok? ==>
        var l := ParseLoop(varStr, startStr, stepStr, stopStr).value;
        visited == Iterations(l.start, l.step, l.stop) && failed == old(failed)
        && variables == if visited == [] then old(variables)
          else old(variables)[l.variable := IntToString(visited[|visited| - 1])]
      ensures arrays == old(arrays)
    {
      var loop := ParseLoop(varStr, startStr, stepStr, stopStr);
      if loop.Err? {
        Fail();
        return [];
      }
      visited := Iterate(loop.value);
    }

    /** A `for` step as written: the same, but with the step parsed from
      the start attribute (`ParseLoopAsWritten`), so `i, 0, 2, 10` fails
      (see `StepReadFromStart`). */
    method ForLoopAsWritten(varStr: string, startStr: string, stepStr: string, stopStr: string) returns (visited: seq<int>)
      modifies this
      ensures ParseLoopAsWritten(varStr, startStr, stepStr, stopStr).Err? ==>
        failed && visited == [] && variables == old(variables)
      ensures ParseLoopAsWritten(varStr, startStr, stepStr, stopStr).Ok? ==>
        var l := ParseLoopAsWritten(varStr, startStr, stepStr, stopStr).value;
        visited == Iterations(l.start, l.step, l.stop) && failed == old(failed)
        && variables == if visited == [] then old(variables)
          else old(variables)[l.variable := IntToString(visited[|visited| - 1])]
      ensures !IsBlank(stepStr) && ParseLoopAsWritten(varStr, startStr, stepStr, stopStr).Ok? ==>
        |visited| >= 2 ==> visited[1] - visited[0] == TryParseInt(startStr).value
      ensures arrays == old(arrays)
    {
      var loop := ParseLoopAsWritten(varStr, startStr, stepStr, stopStr);
      if loop.Err? {
        Fail();
        return [];
      }
      visited := Iterate(loop.value);
    }

    /** Runs a checked loop: the variable takes each value in turn. The
      body run for each value is not modelled; the variable is left at
      the last value. */
    method Iterate(l: Loop) returns (visited: seq<int>)
      requires l.start >= l.stop || l.step >= 1
      modifies this
      ensures visited == Iterations(l.start, l.step, l.stop)
      ensures variables == if visited == [] then old(variables)
        else old(variables)[l.variable := IntToString(visited[|visited| - 1])]
      ensures failed == old(failed) && arrays == old(arrays)
    {
      visited := [];
      var i := l.start;
      while i < l.stop
        invariant i >= l.stop || l.step >= 1
        invariant visited + Iterations(i, l.step, l.stop) == Iterations(l.start, l.step, l.stop)
        invariant visited == [] ==> variables == old(variables)
        invariant visited != [] ==> variables == old(variables)[l.variable := IntToString(visited[|visited| - 1])]
        invariant failed == old(failed) && arrays == old(arrays)
        decreases l.stop - i
      {
        IterationsNext(visited, l.start, i, l.step, l.stop);
        variables := variables[l.variable := IntToString(i)];
        visited := visited + [i];
        assert visited[|visited| - 1] == i;
        i := i + l.step;
      }
      assert visited + [] == visited;
    }

    /** An `elementAt` step: checks its attributes, then sets the variable
      to the array's item at the index. */
    method ElementAt(idStr: string, varStr: string, indexStr: string) returns (r: Result<Element, StepError>)
      modifies this
      ensures arrays == old(arrays)
      ensures r == CheckElementAt(arrays, idStr, varStr, indexStr)
      ensures r.Err? ==> failed && variables == old(variables)
      ensures r.Ok? ==> (failed == old(failed)
        && variables == old(variables)[r.value.variable := arrays[r.value.arrayID][r.value.index]])
    {
      r := CheckElementAt(arrays, idStr, varStr, indexStr);
      if r.Err? {
        Fail();
        return;
      }
      variables := variables[r.value.variable := arrays[r.value.arrayID][r.value.index]];
    }

    /** Expands every piece in turn; the group fails when one of them does. */
    method ExpandPieces(pieces: seq<string>, geometry: Option<GeometryView>) returns (items: seq<string>)
      modifies this
      ensures |items| == |pieces|
      ensures forall j :: 0 <= j < |pieces| ==> items[j] == Expand(old(Environment(geometry)), pieces[j]).text
      ensures failed == (old(failed) || exists j :: 0 <= j < |pieces| && Expand(old(Environment(geometry)), pieces[j]).fails)
      ensures variables == old(variables) && arrays == old(arrays)
    {
      ghost var env := Environment(geometry);
      items := [];
      var k := 0;
      while k < |pieces|
        invariant 0 <= k <= |pieces|
        invariant env == Environment(geometry)
        invariant |items| == k
        invariant forall j :: 0 <= j < k ==> items[j] == Expand(env, pieces[j]).text
        invariant failed == (old(failed) || exists j :: 0 <= j < k && Expand(env, pieces[j]).fails)
      {
        var item := ExpandVariables(pieces[k], geometry);
        items := items + [item];
        k := k + 1;
      }
    }

    /** A `formArray` step: checks its attributes, then sets the array to
      the expanded pieces of the expanded value. */
    method FormArray(idStr: string, delimiterStr: string, value: string, geometry: Option<GeometryView>)
      returns (r: Result<seq<string>, StepError>)
      modifies this
      ensures CheckFormArray(idStr, delimiterStr).Err? ==>
        r == Err(CheckFormArray(idStr, delimiterStr).error) && failed && arrays == old(arrays)
      ensures CheckFormArray(idStr, delimiterStr).Ok? ==>
        var (id, d) := CheckFormArray(idStr, delimiterStr).value;
        r == Ok(FormedItems(old(Environment(geometry)), value, d))
        && arrays == old(arrays)[id := r.value]
        && failed == (old(failed) || FormFails(old(Environment(geometry)), value, d))
      ensures variables == old(variables)
    {
      var check := CheckFormArray(idStr, delimiterStr);
      if check.Err? {
        Fail();
        return Err(check.error);
      }
      ghost var env := Environment(geometry);
      var (id, d) := check.value;
      var expanded := ExpandVariables(value, geometry);
      var items := ExpandPieces(Split(expanded, d), geometry);
      assert items == FormedItems(env, value, d);
      arrays := arrays[id := items];
      return Ok(items);
    }
  }
}
