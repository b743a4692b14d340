/** The string helpers the Gaussian input reader uses on route-section
    keywords: splitting `key=value` pairs (optionally ignoring delimiters
    inside parentheses), finding whether a position is inside
    parentheses, reading a `%mem` amount in megabytes, taking the text in
    the first top-level parentheses, and splitting `method/basis`. */
module GaussianReader {
  import opened Wrappers
  import opened Text

  // ---------------------------------------------------------------------
  // Parenthesis depth

  /** How much a character changes the depth: up for the opening
      character, down for the closing one (the opening one is checked
      first). */
  function Delta(c: char, open: char, close: char): int {
    if c == open then 1 else if c == close then -1 else 0
  }

  /** The depth after reading `s`: opening minus closing characters. */
  function Depth(s: string, open: char, close: char): int
    decreases |s|
  {
    if s == [] then 0 else Depth(s[..|s| - 1], open, close) + Delta(s[|s| - 1], open, close)
  }

  lemma {:induction false} DepthAppend(a: string, b: string, open: char, close: char)
    ensures Depth(a + b, open, close) == Depth(a, open, close) + Depth(b, open, close)
    decreases |b|
  {
    if b == [] {
      assert a + b == a;
    } else {
      var ab := a + b;
      assert ab != [] && ab[..|ab| - 1] == a + b[..|b| - 1];
      assert ab[|ab| - 1] == b[|b| - 1];
      DepthAppend(a, b[..|b| - 1], open, close);
    }
  }

  /** No prefix of `s` closes more than it opens. */
  predicate NeverBelow(s: string, open: char, close: char) {
    forall j :: 0 <= j <= |s| ==> Depth(s[..j], open, close) >= 0
  }

  /** Whether the character at `index` lies inside parentheses: the depth
      before it is not zero. An index outside the string is not enclosed. */
  method StringIndexEnclosed(s: string, index: int, open: char, close: char) returns (r: bool)
    ensures r == (0 <= index < |s| && Depth(s[..index], open, close) != 0)
  {
    var depth := 0;
    var i := 0;
    while i < |s|
      invariant 0 <= i <= |s|
      invariant depth == Depth(s[..i], open, close)
      invariant index < i ==> index < 0
    {
      if index == i {
        return depth != 0;
      } else if s[i] == open {
        depth := depth + 1;
      } else if s[i] == close {
        depth := depth - 1;
      }
      assert s[..i + 1][..i] == s[..i];
      i := i + 1;
    }
    return false;
  }

  /** After an opening character at depth zero, every position up to the
      end of a part that never closes more than it opens is enclosed,
      while the opening character itself is not. */
  lemma InsidePair(pre: string, x: string, post: string, open: char, close: char, j: nat)
    requires open != close && Depth(pre, open, close) == 0 && NeverBelow(x, open, close) && j <= |x|
    ensures var s := pre + [open] + x + post;
      Depth(s[..|pre|], open, close) == 0 && Depth(s[..|pre| + 1 + j], open, close) >= 1
  {
    var entered := pre + [open];
    assert Depth(entered, open, close) == 1 by {
      assert entered[..|entered| - 1] == pre;
    }
    assert Depth(x[..j], open, close) >= 0;
    Prefixes(pre, open, x, post, j);
    DepthAppend(entered, x[..j], open, close);
  }

  /** The prefixes of `pre + [o] + x + post` that end before `o` and
      inside `x`. */
  lemma Prefixes<T>(pre: seq<T>, o: T, x: seq<T>, post: seq<T>, j: nat)
    requires j <= |x|
    ensures var s := pre + [o] + x + post;
      s[..|pre|] == pre && s[..|pre| + 1 + j] == pre + [o] + x[..j]
  {
  }

  // ---------------------------------------------------------------------
  // Key/value pairs

  /** The first position, from `from` on, of `d` at depth zero; -1 when
      there is none. */
  function FirstFree(s: string, d: char, open: char, close: char, from: nat): (k: int)
    ensures k == -1 || (from <= k < |s| && s[k] == d && Depth(s[..k], open, close) == 0)
    ensures forall j :: from <= j < |s| && (k == -1 || j < k) ==> !(s[j] == d && Depth(s[..j], open, close) == 0)
    decreases |s| - from
  {
    if from >= |s| then -1
    else if s[from] == d && Depth(s[..from], open, close) == 0 then from
    else FirstFree(s, d, open, close, from + 1)
  }

  datatype PairError = NoValue

  /** The value of a `key=value` pair. When delimiters inside parentheses
      are skipped, it is everything after the first delimiter at depth
      zero, or empty when there is none; otherwise it is the second
      non-empty piece between delimiters, and there being none is an
      error. */
  function PairValue(s: string, d: char, checkEnclosed: bool, open: char, close: char): (r: Result<string, PairError>)
    ensures checkEnclosed ==> r.Ok?
    ensures r.Ok? && r.value != [] ==> d !in r.value || checkEnclosed
  {
    if checkEnclosed then
      var k := FirstFree(s, d, open, close, 0);
      Ok(if k == -1 then "" else s[k + 1..])
    else
      var pieces := SplitNonEmpty(s, d);
      if |pieces| < 2 then Err(NoValue) else Ok(pieces[1])
  }

  /** Reads the value of a pair as the Gaussian input reader does,
      checking every delimiter for enclosure in turn. */
  method GetValueFromPair(s: string, d: char, checkEnclosed: bool, open: char, close: char) returns (r: Result<string, PairError>)
    ensures r == PairValue(s, d, checkEnclosed, open, close)
  {
    if checkEnclosed {
      var i := 0;
      while i < |s|
        invariant 0 <= i <= |s|
        invariant FirstFree(s, d, open, close, 0) == -1 || i <= FirstFree(s, d, open, close, 0)
      {
        if s[i] == d {
          var enclosed := StringIndexEnclosed(s, i, open, close);
          if !enclosed {
            return Ok(s[i + 1..]);
          }
        }
        i := i + 1;
      }
      return Ok("");
    }
    var pieces := SplitNonEmpty(s, d);
    if |pieces| < 2 {
      return Err(NoValue);
    }
    return Ok(pieces[1]);
  }

  /** A key and a value joined by the delimiter give back the value, both
      when enclosure is checked (the key has no parentheses) and when
      it is not. */
  lemma PairReadsBack(key: string, value: string, d: char, open: char, close: char)
    requires key != [] && value != [] && d !in key && d !in value
    requires open !in key && close !in key && d != open && d != close
    ensures PairValue(key + [d] + value, d, true, open, close) == Ok(value)
    ensures PairValue(key + [d] + value, d, false, open, close) == Ok(value)
  {
    var s := key + [d] + value;
    SplitNonEmptyPair(key, value, d);
    NoBracketsFlat(key, open, close);
    assert s[..|key|] == key;
    assert s[|key| + 1..] == value;
    assert s[|key|] == d;
  }

  /** A string without brackets stays at depth zero. */
  lemma {:induction false} NoBracketsFlat(s: string, open: char, close: char)
    requires open !in s && close !in s
    ensures Depth(s, open, close) == 0
    decreases |s|
  {
    if s != [] {
      var init := s[..|s| - 1];
      assert open !in init && close !in init by {
        forall i | 0 <= i < |init| ensures init[i] != open && init[i] != close {
          assert init[i] == s[i];
        }
      }
      NoBracketsFlat(init, open, close);
    }
  }

  // ---------------------------------------------------------------------
  // Memory amounts

  predicate IsNumberChar(c: char) { IsDigit(c) || c == ' ' || c == '-' }

  predicate IsAlphaChar(c: char) { IsLetter(c) || c == ' ' || c == '-' }

  /** The digits, spaces and minus signs of a string. */
  function ToNumber(s: string): string { Filter(s, IsNumberChar) }

  /** The letters, spaces and minus signs of a string. */
  function ToAlpha(s: string): string { Filter(s, IsAlphaChar) }

  /** A 32-bit signed result of integer arithmetic that wraps around. */
  function Wrap32(x: int): (r: int)
    ensures Int32Min <= r <= Int32Max
    ensures Int32Min <= x <= Int32Max ==> r == x
  {
    (x - Int32Min) % 0x1_0000_0000 + Int32Min
  }

  /** Integer division rounding toward zero. */
  function DivTrunc(a: int, b: int): (q: int)
    requires b > 0
    ensures a >= 0 ==> q == a / b
    ensures a < 0 ==> q == -((-a) / b)
  {
    if a >= 0 then a / b else -((-a) / b)
  }

  datatype MemoryError = BadNumber | UnknownUnits

  /** A number of the given units in megabytes: the units must be KB, MB,
      GB or TB, the scaling wraps around in 32 bits and division rounds
      toward zero. */
  function ScaleToMB(number: Option<int>, units: string): (r: Result<int, MemoryError>)
    requires number.Some? ==> Int32Min <= number.value <= Int32Max
    ensures r == Err(BadNumber) <==> number.None?
    ensures r == Err(UnknownUnits) <==> (number.Some?
      && units != "KB" && units != "MB" && units != "GB" && units != "TB")
    ensures r.Ok? ==> Int32Min <= r.value <= Int32Max
  {
    if number.None? then Err(BadNumber)
    else if units == "KB" then Ok(DivTrunc(number.value, 1024))
    else if units == "MB" then Ok(number.value)
    else if units == "GB" then Ok(Wrap32(number.value * 1024))
    else if units == "TB" then Ok(Wrap32(number.value * 1048576))
    else Err(UnknownUnits)
  }

  /** A `%mem` amount in megabytes: the number made of its digits, spaces
      and minus signs, scaled by its units, its letters, spaces and minus
      signs upper-cased. It fails when the number does not read as a
      32-bit integer, and otherwise when the units are none of KB, MB, GB
      and TB; MemoryReadsBack gives the scaling of each unit. */
  function GetMemoryMB(s: string): (r: Result<int, MemoryError>)
    ensures r == Err(BadNumber) <==> TryParseInt(ToNumber(s)).None?
    ensures r == Err(UnknownUnits) <==>
      TryParseInt(ToNumber(s)).Some? && Upper(ToAlpha(s)) !in {"KB", "MB", "GB", "TB"}
    ensures r.Ok? ==> Int32Min <= r.value <= Int32Max
  {
    ScaleToMB(TryParseInt(ToNumber(s)), Upper(ToAlpha(s)))
  }

  /** The megabytes in one of the units. */
  function UnitMB(units: string): nat {
    if units == "GB" then 1024 else if units == "TB" then 1048576 else 1
  }

  /** The number part of a printed amount followed by its units is the
      printed amount. */
  lemma AmountNumber(m: nat, units: string)
    requires forall i :: 0 <= i < |units| ==> IsLetter(units[i])
    ensures ToNumber(NatToString(m) + units) == NatToString(m)
  {
    var digits := NatToString(m);
    FilterAppend(digits, units, IsNumberChar);
    FilterAll(digits, IsNumberChar);
    FilterNone(units, IsNumberChar);
    assert digits + [] == digits;
  }

  /** The units part of a printed amount followed by its units is the
      units. */
  lemma AmountUnits(m: nat, units: string)
    requires forall i :: 0 <= i < |units| ==> IsLetter(units[i])
    ensures ToAlpha(NatToString(m) + units) == units
  {
    var digits := NatToString(m);
    FilterAppend(digits, units, IsAlphaChar);
    FilterNone(digits, IsAlphaChar);
    FilterAll(units, IsAlphaChar);
    assert [] + units == units;
  }

  /** A printed amount followed by its units reads back as that amount in
      megabytes, when it fits in 32 bits. */
  lemma MemoryReadsBack(m: nat, units: string)
    requires units == "KB" || units == "MB" || units == "GB" || units == "TB"
    requires m * UnitMB(units) <= Int32Max
    ensures GetMemoryMB(NatToString(m) + units) ==
      Ok(if units == "KB" then m / 1024 else m * UnitMB(units))
  {
    var str := NatToString(m) + units;
    UnitsLetters(units);
    assert TryParseInt(ToNumber(str)) == Some(m) by {
      AmountNumber(m, units);
      assert m <= Int32Max by {
        if units == "GB" {
          assert m * 1024 <= Int32Max;
        } else if units == "TB" {
          assert m * 1048576 <= Int32Max;
        }
      }
      TryParseIntToString(m);
      assert IntToString(m) == NatToString(m);
    }
    assert Upper(ToAlpha(str)) == units by {
      AmountUnits(m, units);
    }
    ScaleReadsBack(m, units);
  }

  /** The units are upper-case letters. */
  lemma UnitsLetters(units: string)
    requires units == "KB" || units == "MB" || units == "GB" || units == "TB"
    ensures forall i :: 0 <= i < |units| ==> IsLetter(units[i])
    ensures Upper(units) == units
  {
  }

  lemma ScaleReadsBack(m: nat, units: string)
    requires units == "KB" || units == "MB" || units == "GB" || units == "TB"
    requires m * UnitMB(units) <= Int32Max
    ensures ScaleToMB(Some(m), units) == Ok(if units == "KB" then m / 1024 else m * UnitMB(units))
  {
    if units == "GB" {
      assert m * 1024 <= Int32Max;
    } else if units == "TB" {
      assert m * 1048576 <= Int32Max;
    }
  }

  // ---------------------------------------------------------------------
  // Parentheses

  /** The first position, from `from` on, of `c` at depth `d` (counting
      round brackets); -1 when there is none. */
  function FirstAt(s: string, c: char, d: int, from: nat): (k: int)
    ensures k == -1 || (from <= k < |s| && s[k] == c && Depth(s[..k], '(', ')') == d)
    ensures forall j :: from <= j < |s| && (k == -1 || j < k) ==> !(s[j] == c && Depth(s[..j], '(', ')') == d)
    decreases |s| - from
  {
    if from >= |s| then -1
    else if s[from] == c && Depth(s[..from], '(', ')') == d then from
    else FirstAt(s, c, d, from + 1)
  }

  /** Reaching depth one needs an opening bracket at depth zero before. */
  lemma {:induction false} OpensBefore(s: string, k: nat)
    requires k <= |s| && Depth(s[..k], '(', ')') >= 1
    ensures FirstAt(s, '(', 0, 0) != -1 && FirstAt(s, '(', 0, 0) < k
    decreases k
  {
    assert k > 0;
    assert s[..k][..k - 1] == s[..k - 1];
    if Depth(s[..k - 1], '(', ')') >= 1 {
      OpensBefore(s, k - 1);
    } else {
      assert s[k - 1] == '(' && Depth(s[..k - 1], '(', ')') == 0;
    }
  }

  datatype ParenthesesError = Unclosed

  /** The text inside the first top-level pair of round brackets: the
      input itself when no bracket opens at depth zero, an error when the
      pair is not closed. */
  function InParentheses(s: string): (r: Result<string, ParenthesesError>)
    ensures FirstAt(s, '(', 0, 0) == -1 ==> r == Ok(s)
    ensures r == Err(Unclosed) <==> FirstAt(s, '(', 0, 0) != -1 && FirstAt(s, ')', 1, 0) == -1
  {
    var a := FirstAt(s, '(', 0, 0);
    var b := FirstAt(s, ')', 1, 0);
    if a == -1 then Ok(s)
    else if b == -1 then Err(Unclosed)
    else
      OpensBefore(s, b);
      Ok(s[a + 1..b])
  }

  /** No `c` at depth `d` has been seen before position `i`. */
  predicate NoneBefore(s: string, c: char, d: int, i: nat) {
    FirstAt(s, c, d, 0) == -1 || i <= FirstAt(s, c, d, 0)
  }

  /** Reading one more character either finds the first `c` at depth `d`
      or leaves none seen. */
  lemma NoneBeforeStep(s: string, c: char, d: int, i: nat)
    requires i < |s| && NoneBefore(s, c, d, i)
    ensures s[i] == c && Depth(s[..i], '(', ')') == d ==> FirstAt(s, c, d, 0) == i
    ensures !(s[i] == c && Depth(s[..i], '(', ')') == d) ==> NoneBefore(s, c, d, i + 1)
  {
  }

  lemma DepthStep(s: string, i: nat, open: char, close: char)
    requires i < |s|
    ensures Depth(s[..i + 1], open, close) == Depth(s[..i], open, close) + Delta(s[i], open, close)
  {
    assert s[..i + 1][..i] == s[..i];
  }

  /** Takes the text in the first top-level brackets as the Gaussian input
      reader does, in one pass keeping the depth. */
  method GetStringInParentheses(s: string) returns (r: Result<string, ParenthesesError>)
    ensures r == InParentheses(s)
  {
    var startIndex, endIndex, depth := -1, -1, 0;
    var i := 0;
    while i < |s|
      invariant 0 <= i <= |s|
      invariant depth == Depth(s[..i], '(', ')')
      invariant startIndex == -1 ==> NoneBefore(s, '(', 0, i)
      invariant startIndex != -1 ==> FirstAt(s, '(', 0, 0) != -1 && startIndex == FirstAt(s, '(', 0, 0) + 1
      invariant endIndex == -1 ==> NoneBefore(s, ')', 1, i)
      invariant endIndex != -1 ==> FirstAt(s, ')', 1, 0) != -1 && endIndex == FirstAt(s, ')', 1, 0) - 1
    {
      DepthStep(s, i, '(', ')');
      if startIndex == -1 {
        NoneBeforeStep(s, '(', 0, i);
      }
      if endIndex == -1 {
        NoneBeforeStep(s, ')', 1, i);
      }
      if s[i] == '(' {
        if depth == 0 && startIndex == -1 {
          startIndex := i + 1;
        }
        depth := depth + 1;
      } else if s[i] == ')' {
        if depth == 1 && endIndex == -1 {
          endIndex := i - 1;
        }
        depth := depth - 1;
      }
      i := i + 1;
    }
    if startIndex == -1 {
      return Ok(s);
    }
    if endIndex == -1 {
      return Err(Unclosed);
    }
    OpensBefore(s, endIndex + 1);
    return Ok(s[startIndex..endIndex + 1]);
  }

  /** Inside the first top-level pair the depth never drops to zero. */
  lemma {:induction false} StaysInside(s: string, k: nat)
    requires FirstAt(s, '(', 0, 0) != -1
    requires FirstAt(s, '(', 0, 0) < k <= |s|
    requires FirstAt(s, ')', 1, 0) == -1 || k <= FirstAt(s, ')', 1, 0)
    ensures Depth(s[..k], '(', ')') >= 1
    decreases k
  {
    var a := FirstAt(s, '(', 0, 0);
    assert s[..k][..k - 1] == s[..k - 1];
    if k - 1 > a {
      StaysInside(s, k - 1);
    }
  }

  /** The text taken from the brackets is balanced: none of its prefixes
      closes more than it opens, and as a whole it closes all it opens. */
  lemma ContentsBalanced(s: string)
    requires FirstAt(s, '(', 0, 0) != -1 && InParentheses(s).Ok?
    ensures NeverBelow(InParentheses(s).value, '(', ')')
    ensures Depth(InParentheses(s).value, '(', ')') == 0
  {
    var a := FirstAt(s, '(', 0, 0);
    var b := FirstAt(s, ')', 1, 0);
    OpensBefore(s, b);
    var x := s[a + 1..b];
    assert Depth(s[..a + 1], '(', ')') == 1 by {
      DepthStep(s, a, '(', ')');
    }
    forall j | 0 <= j <= |x|
      ensures Depth(x[..j], '(', ')') >= 0
    {
      StaysInside(s, a + 1 + j);
      InsideFromOpening(s, a + 1, b, j);
    }
    DepthBetween(s, a + 1, b, '(', ')');
  }

  /** A prefix of `s[p..q]` read from depth one, along which the depth of
      `s` stays at one or more, never closes more than it opens. */
  lemma InsideFromOpening(s: string, p: nat, q: nat, j: nat)
    requires p + j <= q <= |s|
    requires Depth(s[..p], '(', ')') == 1 && Depth(s[..p + j], '(', ')') >= 1
    ensures Depth(s[p..q][..j], '(', ')') >= 0
  {
    assert s[p..q][..j] == s[p..p + j];
    DepthBetween(s, p, p + j, '(', ')');
  }

  /** The depth of a slice is the difference of the depths of the prefixes
      around it. */
  lemma DepthBetween(s: string, p: nat, q: nat, open: char, close: char)
    requires p <= q <= |s|
    ensures Depth(s[p..q], open, close) == Depth(s[..q], open, close) - Depth(s[..p], open, close)
  {
    assert s[..q] == s[..p] + s[p..q];
    DepthAppend(s[..p], s[p..q], open, close);
  }

  // ---------------------------------------------------------------------
  // Methods and basis sets

  /** A method, its basis set and its options; empty when absent. */
  datatype MethodBasis = MethodBasis(methodName: string, basis: string, options: string)

  datatype MethodError = NoMethod

  /** The second of exactly two pieces; empty otherwise. */
  function SecondOf(pieces: seq<string>): (r: string)
    ensures |pieces| == 2 ==> r == pieces[1]
    ensures |pieces| != 2 ==> r == []
  {
    if |pieces| == 2 then pieces[1] else ""
  }

  /** Splits `method/basis` or `method=options`. Only the first two
      non-empty pieces between slashes count; the second is split on
      slashes again, which it cannot contain, so a basis never comes with
      options. A string with no method is an error. */
  function MethodFromString(s: string): (r: Result<MethodBasis, MethodError>)
    ensures r.Ok? ==> r.value.methodName != [] && '/' !in r.value.methodName
    ensures r.Ok? && r.value.basis != [] ==> r.value.options == []
    ensures r.Err? <==> SplitNonEmpty(s, '/') == [] || (|SplitNonEmpty(s, '/')| == 1 && SplitNonEmpty(SplitNonEmpty(s, '/')[0], '=') == [])
  {
    var parts := SplitNonEmpty(s, '/');
    if parts == [] then Err(NoMethod)
    else if |parts| == 1 then
      var methodOptions := SplitNonEmpty(parts[0], '=');
      SplitKeepsAbsent(parts[0], '=', '/');
      if methodOptions == [] then Err(NoMethod)
      else Ok(MethodBasis(methodOptions[0], "", SecondOf(methodOptions)))
    else
      SplitNonEmptyOne(parts[1], '/');
      var basisOptions := SplitNonEmpty(parts[1], '/');
      Ok(MethodBasis(parts[0], basisOptions[0], SecondOf(basisOptions)))
  }

  /** `method/basis` reads back as the method and the basis. */
  lemma MethodAndBasis(name: string, basis: string)
    requires name != [] && basis != [] && '/' !in name && '/' !in basis
    ensures MethodFromString(name + "/" + basis) == Ok(MethodBasis(name, basis, ""))
  {
    SplitNonEmptyPair(name, basis, '/');
    SplitNonEmptyOne(basis, '/');
  }

  /** `method=options` reads back as the method and its options. */
  lemma MethodAndOptions(name: string, options: string)
    requires name != [] && options != []
    requires '/' !in name && '/' !in options && '=' !in name && '=' !in options
    ensures MethodFromString(name + "=" + options) == Ok(MethodBasis(name, "", options))
  {
    var s := name + "=" + options;
    assert '/' !in s;
    SplitNonEmptyOne(s, '/');
    SplitNonEmptyPair(name, options, '=');
  }

  /** Options after a basis are lost: `m/b/o` reads as method m and basis b
      with no options. */
  lemma BasisOptionsLost(name: string, basis: string, options: string)
    requires name != [] && basis != [] && options != []
    requires '/' !in name && '/' !in basis && '/' !in options
    ensures MethodFromString(name + "/" + basis + "/" + options) == Ok(MethodBasis(name, basis, ""))
  {
    var items := [name, basis, options];
    SplitNonEmptyOne(basis, '/');
    SplitJoin(items, '/');
    assert Join(items, "/") == name + "/" + basis + "/" + options by {
      assert items[1..] == [basis, options];
      assert items[1..][1..] == [options];
    }
    assert NonEmpty(items) == [name] + NonEmpty([basis, options]) by {
      assert items[1..] == [basis, options];
    }
    assert NonEmpty([basis, options]) == [basis] + NonEmpty([options]) by {
      assert [basis, options][1..] == [options];
    }
    assert NonEmpty([options]) == [options] + NonEmpty([]) by {
      assert [options][1..] == [];
    }
  }
}
