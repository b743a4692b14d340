/** Character and string helpers shared by the identifier parsers and the
    text builders: the .NET character classes the source relies on (over
    ASCII), ordinal comparison, trimming, padding and decimal conversion. */
module Text {
  import opened Wrappers

  predicate IsDigit(c: char) { '0' <= c <= '9' }

  predicate IsSpace(c: char) {
    c == ' ' || c == '\t' || c == '\n' || c == '\r' || c == '\U{000B}' || c == '\U{000C}'
  }

  predicate IsLetter(c: char) { 'a' <= c <= 'z' || 'A' <= c <= 'Z' }

  predicate IsLetterOrDigit(c: char) { IsLetter(c) || IsDigit(c) }

  function ToUpper(c: char): char {
    if 'a' <= c <= 'z' then (c as int - 32) as char else c
  }

  function ToLower(c: char): char {
    if 'A' <= c <= 'Z' then (c as int + 32) as char else c
  }

  /** `string.ToLower()` character by character. */
  function Lower(s: string): (r: string)
    ensures |r| == |s|
    ensures forall i :: 0 <= i < |s| ==> r[i] == ToLower(s[i])
  {
    seq(|s|, i requires 0 <= i < |s| => ToLower(s[i]))
  }

  /** `string.ToUpper()` character by character. */
  function Upper(s: string): (r: string)
    ensures |r| == |s|
    ensures forall i :: 0 <= i < |s| ==> r[i] == ToUpper(s[i])
  {
    seq(|s|, i requires 0 <= i < |s| => ToUpper(s[i]))
  }

  /** Case-insensitive string equality. */
  predicate EqualsIgnoreCase(a: string, b: string) {
    Lower(a) == Lower(b)
  }

  // ---------------------------------------------------------------------
  // Trimming and padding

  /** Number of white-space characters at the start of s. */
  function LeadingSpaces(s: string): (n: nat)
    ensures n <= |s|
    ensures forall i :: 0 <= i < n ==> IsSpace(s[i])
    ensures n < |s| ==> !IsSpace(s[n])
  {
    if s != [] && IsSpace(s[0]) then 1 + LeadingSpaces(s[1..]) else 0
  }

  /** Number of white-space characters at the end of s. */
  function TrailingSpaces(s: string): (n: nat)
    ensures n <= |s|
    ensures forall i :: |s| - n <= i < |s| ==> IsSpace(s[i])
    ensures n < |s| ==> !IsSpace(s[|s| - 1 - n])
  {
    if s != [] && IsSpace(s[|s| - 1]) then 1 + TrailingSpaces(s[..|s| - 1]) else 0
  }

  function TrimStart(s: string): (r: string)
  {
    s[LeadingSpaces(s)..]
  }

  function TrimEnd(s: string): (r: string)
  {
    s[..|s| - TrailingSpaces(s)]
  }

  /** `string.Trim()`: white space removed from both ends. */
  function Trim(s: string): (r: string)
    ensures |r| <= |s|
    ensures r == [] || (!IsSpace(r[0]) && !IsSpace(r[|r| - 1]))
  {
    TrimEnd(TrimStart(s))
  }

  /** A string with no white space at either end is its own trim. */
  lemma TrimUntouched(s: string)
    requires s == [] || (!IsSpace(s[0]) && !IsSpace(s[|s| - 1]))
    ensures Trim(s) == s
  {
  }

  /** A string holding a non-space character does not trim to nothing. */
  lemma TrimNonEmpty(s: string, k: nat)
    requires k < |s| && !IsSpace(s[k])
    ensures Trim(s) != []
  {
    var t := TrimStart(s);
    var d := |s| - |t|;
    assert t[k - d] == s[k];
  }

  /** A character followed by one space trims to the character. */
  lemma TrimTrailingSpace(c: char)
    requires !IsSpace(c)
    ensures Trim([c, ' ']) == [c]
  {
    assert TrimStart([c, ' ']) == [c, ' '];
    assert [c, ' '][..1] == [c];
  }

  /** Blank text before a string that starts with a non-space character
      is exactly its leading white space. */
  lemma {:induction false} LeadingBlank(pre: string, s: string)
    requires IsBlank(pre) && s != [] && !IsSpace(s[0])
    ensures LeadingSpaces(pre + s) == |pre|
    decreases |pre|
  {
    if pre == [] {
      assert pre + s == s;
    } else {
      assert (pre + s)[0] == pre[0];
      assert (pre + s)[1..] == pre[1..] + s;
      LeadingBlank(pre[1..], s);
    }
  }

  /** Blank text after a string that ends with a non-space character is
      exactly its trailing white space. */
  lemma {:induction false} TrailingBlank(s: string, post: string)
    requires IsBlank(post) && s != [] && !IsSpace(s[|s| - 1])
    ensures TrailingSpaces(s + post) == |post|
    decreases |post|
  {
    var x := s + post;
    if post == [] {
      assert x == s;
    } else {
      assert x[|x| - 1] == post[|post| - 1];
      assert x[..|x| - 1] == s + post[..|post| - 1];
      TrailingBlank(s, post[..|post| - 1]);
    }
  }

  /** White space around a string whose ends are not white space is
      trimmed away, and nothing more. */
  lemma TrimAround(pre: string, s: string, post: string)
    requires IsBlank(pre) && IsBlank(post)
    requires s != [] && !IsSpace(s[0]) && !IsSpace(s[|s| - 1])
    ensures Trim(pre + s + post) == s
  {
    assert pre + s + post == pre + (s + post);
    LeadingBlank(pre, s + post);
    assert TrimStart(pre + s + post) == s + post;
    TrailingBlank(s, post);
    assert (s + post)[..|s|] == s;
  }

  /** A one-character slice is the string of that character. */
  lemma SliceOne(p: string, i: nat, s: string)
    requires i < |p| && |s| == 1 && p[i] == s[0]
    ensures p[i..i + 1] == s
  {
  }

  function Spaces(n: nat): (r: string)
    ensures |r| == n && forall i :: 0 <= i < n ==> r[i] == ' '
  {
    seq(n, _ => ' ')
  }

  /** `string.PadRight(n)`: spaces appended up to length n. */
  function PadRight(s: string, n: nat): (r: string)
    ensures |r| == Max(|s|, n)
    ensures r[..|s|] == s
    ensures forall i :: |s| <= i < |r| ==> r[i] == ' '
  {
    if |s| < n then s + Spaces(n - |s|) else s
  }

  // ---------------------------------------------------------------------
  // Decimal numbers

  function DigitValue(c: char): nat
    requires IsDigit(c)
  {
    c as int - '0' as int
  }

  function DigitChar(d: nat): (c: char)
    requires d < 10
    ensures IsDigit(c) && DigitValue(c) == d
  {
    ('0' as int + d) as char
  }

  predicate AllDigits(s: string) {
    forall i :: 0 <= i < |s| ==> IsDigit(s[i])
  }

  /** The value of a string of decimal digits, most significant first. */
  function DigitsValue(s: string): nat
    requires AllDigits(s)
  {
    if s == [] then 0 else DigitsValue(s[..|s| - 1]) * 10 + DigitValue(s[|s| - 1])
  }

  /** `n.ToString()` for a non-negative number. */
  function NatToString(n: nat): (r: string)
    ensures r != [] && AllDigits(r)
    decreases n
  {
    if n < 10 then [DigitChar(n)] else NatToString(n / 10) + [DigitChar(n % 10)]
  }

  /** Decimal printing and reading are inverse. */
  lemma {:induction false} NatToStringRoundTrip(n: nat)
    ensures DigitsValue(NatToString(n)) == n
    decreases n
  {
    if n >= 10 {
      NatToStringRoundTrip(n / 10);
      var s := NatToString(n);
      assert s[..|s| - 1] == NatToString(n / 10);
    }
  }

  /** `n.ToString()` for any 32-bit value: a minus sign before a negative one. */
  function IntToString(n: int): (r: string)
    ensures r != []
  {
    if n < 0 then "-" + NatToString(-n) else NatToString(n)
  }

  const Int32Max: int := 0x7FFF_FFFF

  datatype ParseError = NotANumber | Overflow

  /** `int.Parse(s)` on a string of digits: the empty string is not a
      number and a value beyond the 32-bit range overflows. */
  function ParseDigits(s: string): (r: Result<int, ParseError>)
    requires AllDigits(s)
    ensures s == [] <==> r == Err(NotANumber)
    ensures r.Ok? <==> s != [] && DigitsValue(s) <= Int32Max
    ensures r.Ok? ==> r.value == DigitsValue(s)
  {
    if s == [] then Err(NotANumber)
    else if DigitsValue(s) > Int32Max then Err(Overflow)
    else Ok(DigitsValue(s))
  }

  const Int32Min: int := -0x8000_0000

  /** `int.TryParse(s)`: an optional sign and at least one digit, with white
      space allowed around them, within the 32-bit range. */
  function TryParseInt(s: string): (r: Option<int>)
    ensures r.Some? ==> Int32Min <= r.value <= Int32Max
  {
    var t := Trim(s);
    if t == [] then None
    else
      var digits := if t[0] == '-' || t[0] == '+' then t[1..] else t;
      if digits == [] || !AllDigits(digits) then None
      else
        var v: int := if t[0] == '-' then -(DigitsValue(digits) as int) else DigitsValue(digits);
        if Int32Min <= v <= Int32Max then Some(v) else None
  }

  /** Reading back a printed 32-bit number gives the number. */
  lemma {:induction false} TryParseIntToString(n: int)
    requires Int32Min <= n <= Int32Max
    ensures TryParseInt(IntToString(n)) == Some(n)
  {
    var s := IntToString(n);
    if n < 0 {
      var digits := NatToString(-n);
      NatToStringRoundTrip(-n);
      assert s == "-" + digits;
      ReadSigned(s, digits);
    } else {
      NatToStringRoundTrip(n);
      ReadSigned(s, s);
    }
  }

  /** A sign-free or minus-signed digit string is read as its value. */
  lemma ReadSigned(s: string, digits: string)
    requires digits != [] && AllDigits(digits)
    requires s == digits || s == "-" + digits
    requires Int32Min <= (if s == digits then DigitsValue(digits) else -(DigitsValue(digits) as int)) <= Int32Max
    ensures TryParseInt(s) == Some(if s == digits then DigitsValue(digits) else -(DigitsValue(digits) as int))
  {
    assert IsDigit(digits[0]) && IsDigit(digits[|digits| - 1]);
    assert s[|s| - 1] == digits[|digits| - 1];
    TrimUntouched(s);
    if s != digits {
      assert s[1..] == digits;
    }
  }

  /** `string.IsNullOrWhiteSpace`. */
  predicate IsBlank(s: string) {
    forall i :: 0 <= i < |s| ==> IsSpace(s[i])
  }

  // ---------------------------------------------------------------------
  // Joining and splitting

  /** `string.Join(sep, items)`. */
  function Join(items: seq<string>, sep: string): (r: string)
    ensures items == [] ==> r == []
    ensures |items| == 1 ==> r == items[0]
  {
    if items == [] then [] else if |items| == 1 then items[0] else items[0] + sep + Join(items[1..], sep)
  }

  /** `s.Split(d)`: the pieces between occurrences of `d`, one more than
      there are occurrences, so the empty string gives one empty piece. */
  function Split(s: string, d: char): (r: seq<string>)
    ensures r != []
    ensures forall k :: 0 <= k < |r| ==> d !in r[k]
  {
    if s == [] then [[]]
    else
      var rest := Split(s[1..], d);
      if s[0] == d then [[]] + rest else [[s[0]] + rest[0]] + rest[1..]
  }

  /** A character absent from a string is absent from each of its pieces. */
  lemma {:induction false} SplitKeepsAbsent(s: string, d: char, c: char)
    requires c !in s
    ensures forall k :: 0 <= k < |Split(s, d)| ==> c !in Split(s, d)[k]
  {
    if s != [] {
      SplitKeepsAbsent(s[1..], d, c);
    }
  }

  /** Joining the pieces of a split with the delimiter gives back the string. */
  lemma {:induction false} JoinSplit(s: string, d: char)
    ensures Join(Split(s, d), [d]) == s
  {
    if s != [] {
      var rest := Split(s[1..], d);
      JoinSplit(s[1..], d);
      if s[0] == d {
        assert Split(s, d) == [[]] + rest;
        assert s == [] + [d] + Join(rest, [d]);
      } else {
        var r := Split(s, d);
        assert r == [[s[0]] + rest[0]] + rest[1..];
        if |rest| == 1 {
          assert s == [s[0]] + rest[0];
        } else {
          assert Join(rest, [d]) == rest[0] + [d] + Join(rest[1..], [d]);
          assert r[1..] == rest[1..];
          assert s == [s[0]] + rest[0] + [d] + Join(rest[1..], [d]);
        }
      }
    }
  }

  /** Splitting the join of pieces free of the delimiter gives back the pieces. */
  lemma {:induction false} SplitJoin(items: seq<string>, d: char)
    requires items != []
    requires forall k :: 0 <= k < |items| ==> d !in items[k]
    ensures Split(Join(items, [d]), d) == items
    decreases |items|, |items[0]|
  {
    var first := items[0];
    if first == [] {
      if |items| > 1 {
        SplitJoin(items[1..], d);
        assert Join(items, [d]) == [d] + Join(items[1..], [d]);
      }
    } else {
      var shorter := [first[1..]] + items[1..];
      assert first[1..] == shorter[0];
      SplitJoin(shorter, d);
      if |items| == 1 {
        assert Join(shorter, [d]) == first[1..];
      } else {
        assert Join(items, [d]) == [first[0]] + Join(shorter, [d]);
        assert shorter[1..] == items[1..];
      }
      assert Join(items, [d])[1..] == Join(shorter, [d]);
      assert [first[0]] + first[1..] == first;
    }
  }

  /** The pieces of a split that are not empty, in order: `s.Split(d,
      RemoveEmptyEntries)`. */
  function SplitNonEmpty(s: string, d: char): (r: seq<string>)
    ensures forall k :: 0 <= k < |r| ==> r[k] != [] && d !in r[k]
  {
    NonEmpty(Split(s, d))
  }

  function NonEmpty(pieces: seq<string>): (r: seq<string>)
    ensures |r| <= |pieces|
    ensures forall k :: 0 <= k < |r| ==> r[k] != [] && r[k] in pieces
  {
    if pieces == [] then []
    else if pieces[0] == [] then NonEmpty(pieces[1..])
    else [pieces[0]] + NonEmpty(pieces[1..])
  }

  /** Two non-empty pieces joined by the delimiter split back into them. */
  lemma SplitNonEmptyPair(a: string, b: string, d: char)
    requires a != [] && b != [] && d !in a && d !in b
    ensures SplitNonEmpty(a + [d] + b, d) == [a, b]
  {
    SplitJoin([a, b], d);
    assert Join([a, b], [d]) == a + [d] + b;
    var pieces := [a, b];
    assert pieces[1..] == [b] && [b][1..] == [];
    assert NonEmpty([b]) == [b] + NonEmpty([]);
    assert NonEmpty(pieces) == [a] + NonEmpty([b]);
  }

  /** A non-empty string without the delimiter is its only piece. */
  lemma SplitNonEmptyOne(a: string, d: char)
    requires a != [] && d !in a
    ensures SplitNonEmpty(a, d) == [a]
  {
    SplitJoin([a], d);
    assert [a][1..] == [];
  }

  /** A string without the delimiter is a single piece. */
  lemma {:induction false} SplitWithout(s: string, d: char)
    requires d !in s
    ensures Split(s, d) == [s]
    decreases |s|
  {
    if s != [] {
      assert d !in s[1..] by {
        forall i | 0 <= i < |s[1..]| ensures s[1..][i] != d {
          assert s[1..][i] == s[i + 1];
        }
      }
      SplitWithout(s[1..], d);
      assert [s[0]] + s[1..] == s;
    }
  }

  /** A piece free of the delimiter, followed by the delimiter, is split
      off first. */
  lemma {:induction false} SplitCons(a: string, d: char, rest: string)
    requires d !in a
    ensures Split(a + [d] + rest, d) == [a] + Split(rest, d)
    decreases |a|
  {
    var s := a + [d] + rest;
    if a == [] {
      assert s[0] == d && s[1..] == rest;
    } else {
      SplitCons(a[1..], d, rest);
      assert s[0] == a[0] && s[1..] == a[1..] + [d] + rest;
      assert [a[0]] + a[1..] == a;
    }
  }

  /** `s.IndexOfAny(stops)`: the first position holding one of `stops`,
      with |s| standing for "none". */
  function IndexOfAny(s: string, stops: set<char>): (n: nat)
    ensures n <= |s|
    ensures forall i :: 0 <= i < n ==> s[i] !in stops
    ensures n < |s| ==> s[n] in stops
  {
    if s == [] then 0 else if s[0] in stops then 0 else 1 + IndexOfAny(s[1..], stops)
  }

  // ---------------------------------------------------------------------
  // Ordering

  /** Three-way comparison of numbers, `int.CompareTo`. */
  function CompareInt(a: int, b: int): (r: int)
    ensures r == 0 <==> a == b
    ensures r < 0 <==> a < b
    ensures r > 0 <==> a > b
    ensures -1 <= r <= 1
  {
    if a < b then -1 else if a > b then 1 else 0
  }

  /** Ordinal (character code) three-way comparison of strings. */
  function CompareOrdinal(a: string, b: string): (r: int)
    ensures -1 <= r <= 1
  {
    if a == [] && b == [] then 0
    else if a == [] then -1
    else if b == [] then 1
    else if a[0] < b[0] then -1
    else if a[0] > b[0] then 1
    else CompareOrdinal(a[1..], b[1..])
  }

  lemma {:induction false} CompareOrdinalZero(a: string, b: string)
    ensures CompareOrdinal(a, b) == 0 <==> a == b
    decreases |a|
  {
    if a != [] && b != [] && a[0] == b[0] {
      CompareOrdinalZero(a[1..], b[1..]);
      if a[1..] == b[1..] {
        assert a == [a[0]] + a[1..] && b == [b[0]] + b[1..];
      }
    }
  }

  lemma {:induction false} CompareOrdinalAntisymmetric(a: string, b: string)
    ensures CompareOrdinal(a, b) == -CompareOrdinal(b, a)
    decreases |a|
  {
    if a != [] && b != [] && a[0] == b[0] {
      CompareOrdinalAntisymmetric(a[1..], b[1..]);
    }
  }

  lemma {:induction false} CompareOrdinalTransitive(a: string, b: string, c: string)
    requires CompareOrdinal(a, b) < 0 && CompareOrdinal(b, c) < 0
    ensures CompareOrdinal(a, c) < 0
    decreases |a|
  {
    if a != [] && b != [] && c != [] && a[0] == b[0] && b[0] == c[0] {
      CompareOrdinalTransitive(a[1..], b[1..], c[1..]);
    }
  }

  // ---------------------------------------------------------------------
  // Filtering

  /** The characters of `s` that `keep` accepts, in order. */
  function Filter(s: string, keep: char -> bool): (r: string)
    ensures |r| <= |s|
    ensures forall i :: 0 <= i < |r| ==> keep(r[i])
  {
    if s == [] then [] else (if keep(s[0]) then [s[0]] else []) + Filter(s[1..], keep)
  }

  lemma {:induction false} FilterAppend(a: string, b: string, keep: char -> bool)
    ensures Filter(a + b, keep) == Filter(a, keep) + Filter(b, keep)
    decreases |a|
  {
    if a == [] {
      assert a + b == b;
    } else {
      var ab := a + b;
      assert ab != [] && ab[0] == a[0] && ab[1..] == a[1..] + b;
      FilterAppend(a[1..], b, keep);
    }
  }

  /** Filtering a string with one more character at its end. */
  lemma FilterSnoc(s: string, c: char, keep: char -> bool)
    ensures Filter(s + [c], keep) == Filter(s, keep) + (if keep(c) then [c] else [])
  {
    FilterAppend(s, [c], keep);
    assert [c][1..] == [];
  }

  lemma {:induction false} FilterAll(s: string, keep: char -> bool)
    requires forall i :: 0 <= i < |s| ==> keep(s[i])
    ensures Filter(s, keep) == s
    decreases |s|
  {
    if s != [] {
      FilterAll(s[1..], keep);
    }
  }

  lemma {:induction false} FilterNone(s: string, keep: char -> bool)
    requires forall i :: 0 <= i < |s| ==> !keep(s[i])
    ensures Filter(s, keep) == []
    decreases |s|
  {
    if s != [] {
      FilterNone(s[1..], keep);
    }
  }
}
