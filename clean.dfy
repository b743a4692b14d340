/** Cleaning PDB atom names: removing the numbers after the element and
    identifier letters, removing special characters, numbering repeated
    names within a residue, and finding repeated names. A name is read
    from its first four characters; the first letter among them starts the
    identifier. */
module Clean {
  import opened Text

  // ---------------------------------------------------------------------
  // Single names

  /** The position of the first letter of `s`, or |s| when it has none. */
  function FirstLetter(s: string): (f: nat)
    ensures f <= |s|
    ensures forall j :: 0 <= j < f ==> !IsLetter(s[j])
    ensures f < |s| ==> IsLetter(s[f])
  {
    if s == [] then 0 else if IsLetter(s[0]) then 0 else 1 + FirstLetter(s[1..])
  }

  /** The position of the first space of `s` from `from` on, or |s|. */
  function FirstSpace(s: string, from: nat): (p: nat)
    requires from <= |s|
    ensures from <= p <= |s|
    ensures forall j :: from <= j < p ==> s[j] != ' '
    ensures p < |s| ==> s[p] == ' '
    decreases |s| - from
  {
    if from == |s| then from else if s[from] == ' ' then from else FirstSpace(s, from + 1)
  }

  /** A character with a digit turned into a space. */
  function BlankDigit(c: char): char {
    if IsDigit(c) then ' ' else c
  }

  /** `s` with every digit turned into a space. */
  function BlankDigits(s: string): (r: string)
    ensures |r| == |s|
  {
    seq(|s|, j requires 0 <= j < |s| => BlankDigit(s[j]))
  }

  lemma BlankDigitsSnoc(s: string, c: char)
    ensures BlankDigits(s + [c]) == BlankDigits(s) + [BlankDigit(c)]
  {
    assert forall j :: 0 <= j < |s| ==> (s + [c])[j] == s[j];
  }

  /** The four-character name with the digits after its first letter
      turned into spaces. */
  function StrippedNumber(pdb: string): (r: string)
    requires |pdb| >= 4
    ensures |r| == 4
    ensures forall j :: 0 <= j < 4 ==>
      r[j] == (if FirstLetter(pdb[..4]) < j && IsDigit(pdb[j]) then ' ' else pdb[j])
  {
    var name := pdb[..4];
    var f := FirstLetter(name);
    if f == 4 then name else name[..f + 1] + BlankDigits(name[f + 1..])
  }

  /** Strips the number from a name character by character, remembering
      whether the identifier has started. */
  method StripPDBNumber(pdb: string) returns (r: string)
    requires |pdb| >= 4
    ensures r == StrippedNumber(pdb)
  {
    ghost var name := pdb[..4];
    ghost var f := FirstLetter(name);
    var sb := "";
    var atIdentifier := false;
    for i := 0 to 4
      invariant atIdentifier <==> f < i
      invariant !atIdentifier ==> sb == name[..i]
      invariant atIdentifier ==> sb == name[..f + 1] + BlankDigits(name[f + 1..i])
    {
      var c := pdb[i];
      assert c == name[i];
      if atIdentifier {
        assert name[f + 1..i + 1] == name[f + 1..i] + [c];
        BlankDigitsSnoc(name[f + 1..i], c);
        if IsDigit(c) {
          sb := sb + [' '];
        } else {
          sb := sb + [c];
        }
      } else {
        if IsLetter(c) {
          atIdentifier := true;
          assert name[f + 1..i + 1] == [];
        }
        sb := sb + [c];
        assert name[..i + 1] == name[..i] + [c];
      }
    }
    assert name[..4] == name;
    if f < 4 {
      assert name[f + 1..4] == name[f + 1..];
    }
    r := sb;
  }

  /** Stripping the number twice is stripping it once. */
  lemma StrippedNumberIdempotent(pdb: string)
    requires |pdb| >= 4
    ensures StrippedNumber(StrippedNumber(pdb)) == StrippedNumber(pdb)
  {
    var r := StrippedNumber(pdb);
    var f := FirstLetter(pdb[..4]);
    SameFirstLetter(pdb[..4], r, f);
  }

  /** Two strings that agree up to and including the first letter of the
      first have their first letter at the same place. */
  lemma {:induction false} SameFirstLetter(a: string, b: string, f: nat)
    requires f == FirstLetter(a) && |a| == |b|
    requires forall j :: 0 <= j <= f && j < |a| ==> a[j] == b[j]
    ensures FirstLetter(b) == f
    decreases |a|
  {
    if a != [] && !IsLetter(a[0]) {
      SameFirstLetter(a[1..], b[1..], f - 1);
    }
  }

  /** The four-character name without the characters after its first
      letter that are neither letters nor digits, padded with spaces to
      four characters. */
  function StrippedSpecial(pdb: string): (r: string)
    requires |pdb| >= 4
    ensures |r| == 4
  {
    var name := pdb[..4];
    var f := FirstLetter(name);
    if f == 4 then name else PadRight(name[..f + 1] + Filter(name[f + 1..], IsLetterOrDigit), 4)
  }

  /** What stripping special characters has built after reading the first
      `i` characters of a name whose first letter is at `f`. */
  ghost function SpecialUpTo(name: string, f: nat, i: nat): string
    requires i <= |name|
  {
    if i <= f then name[..i] else name[..f + 1] + Filter(name[f + 1..i], IsLetterOrDigit)
  }

  lemma SpecialStep(name: string, f: nat, i: nat)
    requires i < |name| && (i < f ==> !IsLetter(name[i])) && (i == f ==> IsLetter(name[i]))
    ensures SpecialUpTo(name, f, i + 1) == SpecialUpTo(name, f, i)
      + (if i <= f || IsLetterOrDigit(name[i]) then [name[i]] else [])
  {
    if i < f {
      assert name[..i + 1] == name[..i] + [name[i]];
    } else if i == f {
      assert name[f + 1..i + 1] == [];
      assert name[..i + 1] == name[..i] + [name[i]];
    } else {
      assert name[f + 1..i + 1] == name[f + 1..i] + [name[i]];
      FilterSnoc(name[f + 1..i], name[i], IsLetterOrDigit);
    }
  }

  /** Strips special characters from a name character by character. */
  method StripPDBSpecialCharacters(pdb: string) returns (r: string)
    requires |pdb| >= 4
    ensures r == StrippedSpecial(pdb)
  {
    ghost var name := pdb[..4];
    ghost var f := FirstLetter(name);
    var sb := "";
    var atIdentifier := false;
    for i := 0 to 4
      invariant atIdentifier <==> f < i
      invariant sb == SpecialUpTo(name, f, i)
    {
      var c := pdb[i];
      assert c == name[i];
      SpecialStep(name, f, i);
      if atIdentifier {
        if IsLetterOrDigit(c) {
          sb := sb + [c];
        }
      } else {
        if IsLetter(c) {
          atIdentifier := true;
        }
        sb := sb + [c];
      }
    }
    assert name[..4] == name;
    if f < 4 {
      assert name[f + 1..4] == name[f + 1..];
    }
    r := PadRight(sb, 4);
  }

  /** Stripping special characters keeps the name up to its first letter
      and leaves only letters, digits and padding after it. */
  lemma StrippedSpecialShape(pdb: string)
    requires |pdb| >= 4
    ensures var r := StrippedSpecial(pdb);
      (forall j :: 0 <= j <= FirstLetter(pdb[..4]) && j < 4 ==> r[j] == pdb[j])
      && (forall j :: FirstLetter(pdb[..4]) < j < 4 ==> IsLetterOrDigit(r[j]) || r[j] == ' ')
  {
    var name := pdb[..4];
    var f := FirstLetter(name);
    if f < 4 {
      var kept := Filter(name[f + 1..], IsLetterOrDigit);
      assert StrippedSpecial(pdb)[..f + 1 + |kept|] == name[..f + 1] + kept;
    }
  }

  /** Stripping special characters twice is stripping them once. */
  lemma StrippedSpecialIdempotent(pdb: string)
    requires |pdb| >= 4
    ensures StrippedSpecial(StrippedSpecial(pdb)) == StrippedSpecial(pdb)
  {
    var name := pdb[..4];
    var f := FirstLetter(name);
    var r := StrippedSpecial(pdb);
    StrippedSpecialShape(pdb);
    SameFirstLetter(name, r, f);
    if f < 4 {
      var kept := Filter(name[f + 1..], IsLetterOrDigit);
      var pad := Spaces(4 - (f + 1 + |kept|));
      assert r == name[..f + 1] + kept + pad;
      KeptRestripped(r, name[..f + 1], kept, pad);
      assert r[..4] == r;
    }
  }

  /** A head followed by letters and digits and then spaces keeps the
      same letters and digits after the head when filtered again. */
  lemma KeptRestripped(r: string, head: string, kept: string, pad: string)
    requires r == head + kept + pad
    requires forall i :: 0 <= i < |kept| ==> IsLetterOrDigit(kept[i])
    requires forall i :: 0 <= i < |pad| ==> pad[i] == ' '
    ensures r[..|head|] == head && Filter(r[|head|..], IsLetterOrDigit) == kept
  {
    assert r[|head|..] == kept + pad;
    FilterAppend(kept, pad, IsLetterOrDigit);
    FilterAll(kept, IsLetterOrDigit);
    FilterNone(pad, IsLetterOrDigit);
    assert kept + [] == kept;
  }

  /** The name with `number` written at the first space after its first
      letter and padded to four characters; a name with no letter, or no
      space after it, stays as it is. */
  function Numbered(pdb: string, number: int): (r: string)
    requires |pdb| >= 4
  {
    var name := pdb[..4];
    var f := FirstLetter(name);
    if f == 4 then name
    else
      var sp := FirstSpace(name, f + 1);
      if sp == 4 then name else PadRight(name[..sp] + IntToString(number), 4)
  }

  /** Numbers a name character by character, stopping at the first space
      after the identifier has started. */
  method GetNumberedPDB(pdb: string, number: int) returns (r: string)
    requires |pdb| >= 4
    ensures r == Numbered(pdb, number)
  {
    ghost var name := pdb[..4];
    ghost var f := FirstLetter(name);
    var sb := "";
    var atIdentifier := false;
    var i := 0;
    while i < 4
      invariant 0 <= i <= 4
      invariant atIdentifier <==> f < i
      invariant sb == name[..i]
      invariant atIdentifier ==> FirstSpace(name, f + 1) >= i
    {
      var c := pdb[i];
      assert c == name[i];
      assert name[..i + 1] == name[..i] + [c];
      if atIdentifier {
        if c == ' ' {
          return PadRight(sb + IntToString(number), 4);
        } else {
          sb := sb + [c];
        }
      } else {
        if IsLetter(c) {
          sb := sb + [c];
          atIdentifier := true;
        } else {
          sb := sb + [c];
        }
      }
      i := i + 1;
    }
    assert name[..4] == name;
    return PadRight(sb, 4);
  }

  /** A name whose number has been stripped, with a space after its
      identifier followed only by spaces. */
  predicate Numberable(pdb: string) {
    |pdb| >= 4 && FirstLetter(pdb[..4]) < 4
    && FirstSpace(pdb[..4], FirstLetter(pdb[..4]) + 1) < 4
    && (forall j :: FirstSpace(pdb[..4], FirstLetter(pdb[..4]) + 1) <= j < 4 ==> pdb[j] == ' ')
    && StrippedNumber(pdb) == pdb[..4]
  }

  /** Stripping the number from a numbered name gives back the name. */
  lemma NumberedStripsBack(pdb: string, number: nat)
    requires Numberable(pdb)
    ensures |Numbered(pdb, number)| >= 4
    ensures StrippedNumber(Numbered(pdb, number)) == pdb[..4]
  {
    var name := pdb[..4];
    var f := FirstLetter(name);
    var sp := FirstSpace(name, f + 1);
    assert StrippedNumber(name) == name by {
      assert name[..4] == name;
    }
    DigitsStripBack(name, f, sp, NatToString(number));
  }

  /** Digits written at the first space after the identifier of a
      stripped name, padded to four characters, are stripped again. */
  lemma DigitsStripBack(name: string, f: nat, sp: nat, digits: string)
    requires |name| == 4 && f == FirstLetter(name) < sp < 4 && sp == FirstSpace(name, f + 1)
    requires forall j :: sp <= j < 4 ==> name[j] == ' '
    requires StrippedNumber(name) == name && AllDigits(digits)
    ensures |PadRight(name[..sp] + digits, 4)| >= 4
    ensures StrippedNumber(PadRight(name[..sp] + digits, 4)) == name
  {
    var q := PadRight(name[..sp] + digits, 4);
    assert forall j :: 0 <= j < 4 ==> (j < sp ==> q[j] == name[j]) && (sp <= j ==> q[j] == ' ' || IsDigit(q[j]));
    SameFirstLetter(name, q[..4], f);
    var r := StrippedNumber(q);
    forall j | 0 <= j < 4
      ensures r[j] == name[j]
    {
      if j < sp {
        assert StrippedNumber(name)[j] == name[j];
      }
    }
  }

  /** Different numbers give different numbered names. */
  lemma NumberedInjective(pdb: string, m: nat, n: nat)
    requires Numberable(pdb) && m != n
    ensures Numbered(pdb, m) != Numbered(pdb, n)
  {
    var name := pdb[..4];
    var f := FirstLetter(name);
    var sp := FirstSpace(name, f + 1);
    PaddedNumbersDiffer(name[..sp], m, n);
  }

  /** Two different numbers written after the same prefix and padded
      differ. */
  lemma PaddedNumbersDiffer(p: string, m: nat, n: nat)
    requires m != n
    ensures PadRight(p + NatToString(m), 4) != PadRight(p + NatToString(n), 4)
  {
    var sp := |p|;
    var a, b := NatToString(m), NatToString(n);
    var qa, qb := PadRight(p + a, 4), PadRight(p + b, 4);
    if qa == qb {
      if |a| == |b| {
        assert a == qa[sp..sp + |a|] == qb[sp..sp + |b|] == b;
        NatToStringRoundTrip(m);
        NatToStringRoundTrip(n);
      } else if |a| < |b| {
        DigitsThenSpace(p, a, b, qa, qb);
      } else {
        DigitsThenSpace(p, b, a, qb, qa);
      }
    }
  }

  /** A shorter run of digits padded with spaces differs from a longer
      run of digits after the same prefix. */
  lemma DigitsThenSpace(p: string, a: string, b: string, qa: string, qb: string)
    requires AllDigits(a) && AllDigits(b) && |a| < |b|
    requires qa == PadRight(p + a, 4) && qb == PadRight(p + b, 4)
    ensures qa != qb
  {
    var k := |p| + |a|;
    assert qb[k] == b[|a|];
    if k < |qa| {
      assert qa[k] == ' ';
    }
  }

  // ---------------------------------------------------------------------
  // The names of a residue

  /** The elements of `s` at the positions in `idx`, in that order. */
  function AtIndices(s: seq<string>, idx: seq<int>): (r: seq<string>)
    requires forall k :: 0 <= k < |idx| ==> 0 <= idx[k] < |s|
    ensures |r| == |idx| && forall k :: 0 <= k < |idx| ==> r[k] == s[idx[k]]
    decreases |idx|
  {
    if idx == [] then [] else AtIndices(s, idx[..|idx| - 1]) + [s[idx[|idx| - 1]]]
  }

  /** No position appears twice. */
  predicate Distinct(idx: seq<int>)
    decreases |idx|
  {
    idx == [] || (idx[|idx| - 1] !in idx[..|idx| - 1] && Distinct(idx[..|idx| - 1]))
  }

  /** Distinct positions hold different elements. */
  lemma {:induction false} DistinctAt(idx: seq<int>, p: nat, q: nat)
    requires Distinct(idx) && p < |idx| && q < |idx| && p != q
    ensures idx[p] != idx[q]
    decreases |idx|
  {
    var n := |idx| - 1;
    if p == n {
      assert idx[..n][q] == idx[q];
    } else if q == n {
      assert idx[..n][p] == idx[p];
    } else {
      DistinctAt(idx[..n], p, q);
    }
  }

  /** Every name can be read: it has at least four characters. */
  predicate Readable(names: seq<string>) {
    forall k :: 0 <= k < |names| ==> |names[k]| >= 4
  }

  /** How often `x` occurs in `xs`. */
  function CountIn(xs: seq<string>, x: string): (n: nat)
    ensures n <= |xs|
  {
    if xs == [] then 0
    else CountIn(xs[..|xs| - 1], x) + (if xs[|xs| - 1] == x then 1 else 0)
  }

  /** `x` is counted nowhere exactly when it occurs nowhere. */
  lemma {:induction false} CountZero(xs: seq<string>, x: string)
    ensures CountIn(xs, x) == 0 <==> forall p :: 0 <= p < |xs| ==> xs[p] != x
    decreases |xs|
  {
    if xs != [] {
      var n := |xs| - 1;
      CountZero(xs[..n], x);
      assert forall p :: 0 <= p < n ==> xs[..n][p] == xs[p];
    }
  }

  /** The names with their numbers stripped. */
  function StrippedNames(names: seq<string>): (r: seq<string>)
    requires Readable(names)
    ensures |r| == |names|
    decreases |names|
  {
    if names == [] then []
    else
      var n := |names| - 1;
      StrippedNames(names[..n]) + [StrippedNumber(names[n])]
  }

  /** Each stripped name is its name stripped, and can be read. */
  lemma {:induction false} StrippedNamesAt(names: seq<string>, k: nat)
    requires Readable(names) && k < |names|
    ensures StrippedNames(names)[k] == StrippedNumber(names[k])
    ensures |StrippedNames(names)[k]| == 4
    decreases |names|
  {
    var n := |names| - 1;
    if k < n {
      StrippedNamesAt(names[..n], k);
    }
  }

  /** The stripped names can be read. */
  lemma StrippedReadable(names: seq<string>)
    requires Readable(names)
    ensures Readable(StrippedNames(names))
  {
    forall k | 0 <= k < |names|
      ensures |StrippedNames(names)[k]| >= 4
    {
      StrippedNamesAt(names, k);
    }
  }

  /** What the numbering does to a name: keeps it as it was, or replaces
      it with its stripped form numbered `n`. */
  datatype Label = Kept | Number(n: int)

  /** The label of position `k` once the first `i` stripped names `st`
      have been read: a stripped form read once keeps its name; otherwise
      each occurrence is numbered by its rank, 1 for the first, 2 for the
      second and so on. */
  function LabelAfter(st: seq<string>, i: nat, k: nat): Label
    requires k < i <= |st|
  {
    if CountIn(st[..i], st[k]) == 1 then Kept else Number(CountIn(st[..k + 1], st[k]))
  }

  /** A name under label `l`, `stripped` being its stripped form. */
  function Named(name: string, stripped: string, l: Label): string
    requires |stripped| >= 4
  {
    match l
    case Kept => name
    case Number(n) => Numbered(stripped, n)
  }

  /** The names under the labels `labels`. */
  function Rendered(names: seq<string>, st: seq<string>, labels: seq<Label>): (r: seq<string>)
    requires |labels| == |names| == |st| && Readable(st)
    ensures |r| == |names|
    decreases |labels|
  {
    if labels == [] then []
    else
      var n := |labels| - 1;
      Rendered(names[..n], st[..n], labels[..n]) + [Named(names[n], st[n], labels[n])]
  }

  /** Each rendered name is its name under its label. */
  lemma {:induction false} RenderedAt(names: seq<string>, st: seq<string>, labels: seq<Label>, k: nat)
    requires |labels| == |names| == |st| && Readable(st) && k < |names|
    ensures Rendered(names, st, labels)[k] == Named(names[k], st[k], labels[k])
    decreases |labels|
  {
    var n := |labels| - 1;
    if k < n {
      RenderedAt(names[..n], st[..n], labels[..n], k);
      assert names[..n][k] == names[k] && st[..n][k] == st[k] && labels[..n][k] == labels[k];
    }
  }

  /** Relabelling one position renames only that position. */
  lemma RenderedUpdate(names: seq<string>, st: seq<string>, labels: seq<Label>, k: nat, l: Label)
    requires |labels| == |names| == |st| && Readable(st) && k < |names|
    ensures Rendered(names, st, labels[k := l]) == Rendered(names, st, labels)[k := Named(names[k], st[k], l)]
  {
    var r, r' := Rendered(names, st, labels), Rendered(names, st, labels[k := l]);
    forall p | 0 <= p < |names|
      ensures r'[p] == r[k := Named(names[k], st[k], l)][p]
    {
      RenderedAt(names, st, labels[k := l], p);
      RenderedAt(names, st, labels, p);
    }
  }

  /** Under labels that keep every name, the names are as they were. */
  lemma RenderedKept(names: seq<string>, st: seq<string>, labels: seq<Label>)
    requires |labels| == |names| == |st| && Readable(st)
    requires forall k :: 0 <= k < |labels| ==> labels[k] == Kept
    ensures Rendered(names, st, labels) == names
  {
    var r := Rendered(names, st, labels);
    forall p | 0 <= p < |names|
      ensures r[p] == names[p]
    {
      RenderedAt(names, st, labels, p);
    }
  }

  /** The name at position `k` after numbering all the repeated names. */
  function Uniquated(names: seq<string>, k: nat): string
    requires Readable(names) && k < |names|
  {
    var st := StrippedNames(names);
    StrippedReadable(names);
    Named(names[k], st[k], LabelAfter(st, |names|, k))
  }

  lemma CountSnoc(xs: seq<string>, y: string, x: string)
    ensures CountIn(xs + [y], x) == CountIn(xs, x) + (if y == x then 1 else 0)
  {
    assert (xs + [y])[..|xs|] == xs;
  }

  /** Counting in one more element. */
  lemma CountNext(xs: seq<string>, i: nat, x: string)
    requires i < |xs|
    ensures CountIn(xs[..i + 1], x) == CountIn(xs[..i], x) + (if xs[i] == x then 1 else 0)
  {
    assert xs[..i + 1] == xs[..i] + [xs[i]];
    CountSnoc(xs[..i], xs[i], x);
  }

  /** When `x` occurs once and `j` is its first position, it occurs
      nowhere else. */
  lemma {:induction false} OnlyOccurrence(xs: seq<string>, x: string, j: nat, k: nat)
    requires CountIn(xs, x) == 1 && j < |xs| && xs[j] == x
    requires forall p :: 0 <= p < j ==> xs[p] != x
    requires k < |xs| && xs[k] == x
    ensures k == j
    decreases |xs|
  {
    var n := |xs| - 1;
    if xs[n] == x {
      CountZero(xs[..n], x);
      assert forall p :: 0 <= p < n ==> xs[..n][p] == xs[p];
    } else {
      assert xs[..n][j] == x && xs[..n][k] == x;
      OnlyOccurrence(xs[..n], x, j, k);
    }
  }

  /** Reading one more name leaves the label of an earlier one as it
      was, unless its stripped form is the new one's and occurred once so
      far. */
  lemma AfterUnchanged(st: seq<string>, i: nat, k: nat)
    requires k < i < |st|
    requires st[k] != st[i] || CountIn(st[..i], st[i]) >= 2
    ensures LabelAfter(st, i + 1, k) == LabelAfter(st, i, k)
  {
    CountNext(st, i, st[k]);
  }

  /** Reading the second occurrence of a stripped form numbers the first
      occurrence 1. */
  lemma AfterSecond(st: seq<string>, i: nat, k: nat)
    requires k < i < |st|
    requires st[k] == st[i] && CountIn(st[..i], st[i]) == 1
    ensures LabelAfter(st, i + 1, k) == Number(1)
  {
    CountNext(st, i, st[k]);
    CountNext(st, k, st[k]);
    assert CountIn(st[..k + 1], st[k]) <= 1 by {
      assert st[..i] == st[..k + 1] + st[k + 1..i];
      CountAppend(st[..k + 1], st[k + 1..i], st[k]);
    }
  }

  /** The newest name read keeps its name when its stripped form is new,
      and is numbered by its count otherwise. */
  lemma AfterNewest(st: seq<string>, i: nat)
    requires i < |st|
    ensures var c := CountIn(st[..i], st[i]);
      LabelAfter(st, i + 1, i) == if c == 0 then Kept else Number(c + 1)
  {
    CountNext(st, i, st[i]);
  }

  lemma {:induction false} CountAppend(xs: seq<string>, ys: seq<string>, x: string)
    ensures CountIn(xs + ys, x) == CountIn(xs, x) + CountIn(ys, x)
    decreases |ys|
  {
    if ys == [] {
      assert xs + ys == xs;
    } else {
      var n := |ys| - 1;
      assert (xs + ys)[..|xs + ys| - 1] == xs + ys[..n];
      CountAppend(xs, ys[..n], x);
    }
  }

  lemma TakeSnoc<T>(xs: seq<T>, i: nat)
    requires i < |xs|
    ensures xs[..i + 1] == xs[..i] + [xs[i]]
  {
  }

  /** The first position of `x` in `xs`, or |xs| when it does not occur. */
  function FirstIndex(xs: seq<string>, x: string): (j: nat)
    ensures j <= |xs|
    ensures forall p :: 0 <= p < j ==> xs[p] != x
    ensures j < |xs| ==> xs[j] == x
  {
    if xs == [] then 0 else if xs[0] == x then 0 else 1 + FirstIndex(xs[1..], x)
  }

  /** A name that occurs has a first position. */
  lemma FirstIndexFound(xs: seq<string>, x: string)
    requires CountIn(xs, x) > 0
    ensures FirstIndex(xs, x) < |xs|
  {
    CountZero(xs, x);
  }

  /** The first position found by a search from the front is the first
      position. */
  lemma FirstIndexAt(xs: seq<string>, x: string, j: nat)
    requires j < |xs| && xs[j] == x
    requires forall p :: 0 <= p < j ==> xs[p] != x
    ensures FirstIndex(xs, x) == j
  {
  }

  /** The count of each name in `xs`, as the numbering loop keeps it: a
      name seen for the first time is entered with 1, a name seen again
      has its count incremented. */
  function Tally(xs: seq<string>): map<string, int>
  {
    if xs == [] then map[]
    else
      var t := Tally(xs[..|xs| - 1]);
      var x := xs[|xs| - 1];
      t[x := if x in t then t[x] + 1 else 1]
  }

  /** Tallying one more name. */
  lemma TallySnoc(xs: seq<string>, i: nat)
    requires i < |xs|
    ensures var t := Tally(xs[..i]);
      Tally(xs[..i + 1]) == t[xs[i] := if xs[i] in t then t[xs[i]] + 1 else 1]
  {
    assert xs[..i + 1][..i] == xs[..i];
  }

  /** The tally holds exactly the names that occur, each with its count. */
  lemma {:induction false} TallyCount(xs: seq<string>, x: string)
    ensures x in Tally(xs) <==> CountIn(xs, x) > 0
    ensures x in Tally(xs) ==> Tally(xs)[x] == CountIn(xs, x)
    decreases |xs|
  {
    if xs != [] {
      TallyCount(xs[..|xs| - 1], x);
    }
  }

  /** `n` labels that keep every name. */
  function AllKept(n: nat): (r: seq<Label>)
    ensures |r| == n && forall k :: 0 <= k < n ==> r[k] == Kept
  {
    if n == 0 then [] else AllKept(n - 1) + [Kept]
  }

  /** The labels after the numbering loop has read the first `i`
      stripped names: reading a name whose stripped form was seen once
      before numbers that first occurrence 1 and the new one 2; reading a
      name whose stripped form was seen `c` >= 2 times numbers the new one
      `c` + 1; a new stripped form changes nothing. */
  function Labels(st: seq<string>, i: nat): (r: seq<Label>)
    requires i <= |st|
    ensures |r| == |st|
  {
    if i == 0 then AllKept(|st|)
    else
      var n := i - 1;
      var prev := Labels(st, n);
      var c := CountIn(st[..n], st[n]);
      if c == 0 then prev
      else if c == 1 then prev[FirstIndex(st[..i], st[n]) := Number(1)][n := Number(2)]
      else prev[n := Number(c + 1)]
  }

  /** Reading the second occurrence of a stripped form labels the first
      occurrence 1 and the new one 2. */
  lemma LabelsSecond(st: seq<string>, i: nat, j: nat)
    requires i < |st| && CountIn(st[..i], st[i]) == 1 && j == FirstIndex(st[..i + 1], st[i])
    ensures Labels(st, i + 1) == Labels(st, i)[j := Number(1)][i := Number(2)]
  {
  }

  /** Reading a later occurrence labels only the new one. */
  lemma LabelsLater(st: seq<string>, i: nat)
    requires i < |st| && CountIn(st[..i], st[i]) >= 2
    ensures Labels(st, i + 1) == Labels(st, i)[i := Number(CountIn(st[..i], st[i]) + 1)]
  {
  }

  /** One more reading step gives position `k` its label after `n` + 1
      names, if it had its label after `n`. */
  lemma LabelsStep(st: seq<string>, n: nat, k: nat)
    requires n < |st| && k <= n
    requires k < n ==> Labels(st, n)[k] == LabelAfter(st, n, k)
    requires k == n ==> Labels(st, n)[k] == Kept
    ensures Labels(st, n + 1)[k] == LabelAfter(st, n + 1, k)
  {
    var c := CountIn(st[..n], st[n]);
    var j := FirstIndex(st[..n + 1], st[n]);
    if k == n {
      AfterNewest(st, n);
    } else if c == 0 {
      assert st[k] != st[n] by {
        CountZero(st[..n], st[n]);
        assert st[..n][k] == st[k];
      }
      AfterUnchanged(st, n, k);
    } else if c == 1 && st[k] == st[n] {
      assert j <= k by {
        assert st[..n + 1][k] == st[k];
      }
      assert k == j by {
        assert st[..n][k] == st[k] && st[..n + 1][j] == st[n] && st[..n][j] == st[n];
        OnlyOccurrence(st[..n], st[n], j, k);
      }
      AfterSecond(st, n, k);
    } else {
      AfterUnchanged(st, n, k);
    }
  }

  /** After `i` steps the first `i` positions carry the label
      `LabelAfter` gives them and the others are kept. */
  lemma {:induction false} LabelsAfter(st: seq<string>, i: nat, k: nat)
    requires i <= |st| && k < |st|
    ensures k < i ==> Labels(st, i)[k] == LabelAfter(st, i, k)
    ensures i <= k ==> Labels(st, i)[k] == Kept
    decreases i
  {
    if i > 0 {
      var n := i - 1;
      LabelsAfter(st, n, k);
      if k <= n {
        LabelsStep(st, n, k);
      }
    }
  }

  /** Writes `name` at the position of the `k`-th name, leaving every
      other position as it was. */
  method Rename(pdbs: array<string>, atomNums: seq<int>, k: nat, name: string, ghost shown: seq<string>)
    requires forall p :: 0 <= p < |atomNums| ==> 0 <= atomNums[p] < pdbs.Length
    requires Distinct(atomNums) && k < |atomNums| == |shown|
    requires forall p :: 0 <= p < |atomNums| ==> pdbs[atomNums[p]] == shown[p]
    modifies pdbs
    ensures forall p :: 0 <= p < |atomNums| ==> pdbs[atomNums[p]] == shown[k := name][p]
    ensures forall m :: 0 <= m < pdbs.Length && m !in atomNums ==> pdbs[m] == old(pdbs[m])
  {
    pdbs[atomNums[k]] := name;
    forall p | 0 <= p < |atomNums| && p != k
      ensures atomNums[p] != atomNums[k]
    {
      DistinctAt(atomNums, p, k);
    }
  }

  /** Numbers the `k`-th name `number`, `stripped` being its stripped
      form, and relabels it accordingly. */
  method NumberAt(pdbs: array<string>, atomNums: seq<int>, k: nat, stripped: string, number: int,
                  ghost names: seq<string>, ghost st: seq<string>, ghost labels: seq<Label>, ghost shown: seq<string>)
      returns (ghost labels': seq<Label>, ghost shown': seq<string>)
    requires forall p :: 0 <= p < |atomNums| ==> 0 <= atomNums[p] < pdbs.Length
    requires Distinct(atomNums) && k < |atomNums| == |names| == |st| == |labels| && Readable(st)
    requires stripped == st[k] && shown == Rendered(names, st, labels)
    requires forall p :: 0 <= p < |atomNums| ==> pdbs[atomNums[p]] == shown[p]
    modifies pdbs
    ensures labels' == labels[k := Number(number)] && shown' == Rendered(names, st, labels')
    ensures forall p :: 0 <= p < |atomNums| ==> pdbs[atomNums[p]] == shown'[p]
    ensures forall m :: 0 <= m < pdbs.Length && m !in atomNums ==> pdbs[m] == old(pdbs[m])
  {
    var numbered := GetNumberedPDB(stripped, number);
    Rename(pdbs, atomNums, k, numbered, shown);
    RenderedUpdate(names, st, labels, k, Number(number));
    labels', shown' := labels[k := Number(number)], shown[k := numbered];
  }

  /** Numbers the name just read, whose stripped form `st[i]` has been
      read `count` - 1 >= 1 times before; at the second occurrence the
      first occurrence, found by a search from the front, is numbered 1 as
      well. */
  method NumberRepeated(pdbs: array<string>, atomNums: seq<int>, strippedPDBs: seq<string>, i: nat, count: int,
                        ghost names: seq<string>, ghost st: seq<string>, ghost labels: seq<Label>, ghost shown: seq<string>)
      returns (ghost labels': seq<Label>, ghost shown': seq<string>)
    requires forall k :: 0 <= k < |atomNums| ==> 0 <= atomNums[k] < pdbs.Length
    requires Distinct(atomNums) && i < |atomNums| == |names| == |st| && Readable(st)
    requires strippedPDBs == st[..i + 1] && count == CountIn(st[..i], st[i]) + 1 >= 2
    requires labels == Labels(st, i) && shown == Rendered(names, st, labels)
    requires forall k :: 0 <= k < |atomNums| ==> pdbs[atomNums[k]] == shown[k]
    modifies pdbs
    ensures labels' == Labels(st, i + 1) && shown' == Rendered(names, st, labels')
    ensures forall k :: 0 <= k < |atomNums| ==> pdbs[atomNums[k]] == shown'[k]
    ensures forall m :: 0 <= m < pdbs.Length && m !in atomNums ==> pdbs[m] == old(pdbs[m])
  {
    var strippedPDB := strippedPDBs[i];
    labels', shown' := labels, shown;
    if count == 2 {
      ghost var first := FirstIndex(st[..i], strippedPDB);
      FirstIndexFound(st[..i], strippedPDB);
      var j := 0;
      while j < i && strippedPDBs[j] != strippedPDB
        invariant 0 <= j <= first
        invariant forall p :: 0 <= p < j ==> strippedPDBs[p] != strippedPDB
      {
        j := j + 1;
      }
      FirstIndexAt(strippedPDBs, strippedPDB, j);
      LabelsSecond(st, i, j);
      labels', shown' := NumberAt(pdbs, atomNums, j, strippedPDBs[j], 1, names, st, labels', shown');
    } else {
      LabelsLater(st, i);
    }
    labels', shown' := NumberAt(pdbs, atomNums, i, strippedPDB, count, names, st, labels', shown');
  }

  /** What reading the name at position `i` relies on: its stripped form,
      that it has not been renamed yet, and how the tally grows. */
  lemma ReadStep(names: seq<string>, i: nat)
    requires Readable(names) && i < |names|
    ensures var st := StrippedNames(names);
      && Readable(st) && st[i] == StrippedNumber(names[i])
      && Rendered(names, st, Labels(st, i))[i] == names[i]
      && st[..i + 1] == st[..i] + [st[i]]
      && var t := Tally(st[..i]);
         && Tally(st[..i + 1]) == t[st[i] := if st[i] in t then t[st[i]] + 1 else 1]
         && (st[i] in t <==> CountIn(st[..i], st[i]) > 0)
         && (st[i] in t ==> t[st[i]] == CountIn(st[..i], st[i]))
  {
    var st := StrippedNames(names);
    StrippedReadable(names);
    StrippedNamesAt(names, i);
    LabelsAfter(st, i, i);
    RenderedAt(names, st, Labels(st, i), i);
    TakeSnoc(st, i);
    TallySnoc(st, i);
    TallyCount(st[..i], st[i]);
  }

  /** Reads the name at position `i`: strips its number, counts the
      stripped form, and numbers it when it has been read before. */
  method ReadName(pdbs: array<string>, atomNums: seq<int>, i: nat, pdbNameCountDict: map<string, int>,
                  uniquePDBs: seq<string>, strippedPDBs: seq<string>, ghost names: seq<string>, ghost st: seq<string>)
      returns (dict': map<string, int>, unique': seq<string>, stripped': seq<string>)
    requires forall k :: 0 <= k < |atomNums| ==> 0 <= atomNums[k] < pdbs.Length
    requires Distinct(atomNums) && i < |atomNums| == |names| && Readable(names)
    requires st == StrippedNames(names) && Readable(st)
    requires strippedPDBs == st[..i] && pdbNameCountDict == Tally(st[..i])
    requires forall x :: x in uniquePDBs <==> x in pdbNameCountDict
    requires forall k :: 0 <= k < |atomNums| ==> pdbs[atomNums[k]] == Rendered(names, st, Labels(st, i))[k]
    modifies pdbs
    ensures stripped' == st[..i + 1] && dict' == Tally(st[..i + 1])
    ensures forall x :: x in unique' <==> x in dict'
    ensures forall k :: 0 <= k < |atomNums| ==> pdbs[atomNums[k]] == Rendered(names, st, Labels(st, i + 1))[k]
    ensures forall m :: 0 <= m < pdbs.Length && m !in atomNums ==> pdbs[m] == old(pdbs[m])
  {
    ReadStep(names, i);
    ghost var labels := Labels(st, i);
    ghost var shown := Rendered(names, st, labels);
    var strippedPDB := StripPDBNumber(pdbs[atomNums[i]]);
    ghost var c := CountIn(st[..i], strippedPDB);
    stripped' := strippedPDBs + [strippedPDB];
    unique' := uniquePDBs;
    if strippedPDB in uniquePDBs {
      dict' := pdbNameCountDict[strippedPDB := pdbNameCountDict[strippedPDB] + 1];
    } else {
      dict' := pdbNameCountDict[strippedPDB := 1];
      unique' := uniquePDBs + [strippedPDB];
    }
    var count := dict'[strippedPDB];
    assert count == c + 1;
    if count > 1 {
      labels, shown := NumberRepeated(pdbs, atomNums, stripped', i, count, names, st, labels, shown);
    }
  }

  /** Before any name is read the tally is empty and the names are as
      they were. */
  lemma ReadStart(names: seq<string>, st: seq<string>)
    requires |names| == |st| && Readable(st)
    ensures st[..0] == [] && Tally(st[..0]) == map[]
    ensures Rendered(names, st, Labels(st, 0)) == names
  {
    RenderedKept(names, st, Labels(st, 0));
  }

  /** The names after reading all of them are the uniquated names. */
  lemma RenderedUniquated(names: seq<string>, k: nat)
    requires Readable(names) && k < |names|
    ensures var st := StrippedNames(names);
      Readable(st) && Rendered(names, st, Labels(st, |names|))[k] == Uniquated(names, k)
  {
    var st := StrippedNames(names);
    StrippedReadable(names);
    RenderedAt(names, st, Labels(st, |names|), k);
    LabelsAfter(st, |names|, k);
  }

  /** Reads every name at `atomNums` in order, numbering the repeated
      ones; `names` are the names before and `st` their stripped forms. */
  method ReadAll(pdbs: array<string>, atomNums: seq<int>, ghost names: seq<string>, ghost st: seq<string>)
    requires forall k :: 0 <= k < |atomNums| ==> 0 <= atomNums[k] < pdbs.Length
    requires Distinct(atomNums) && |atomNums| == |names| && Readable(names)
    requires st == StrippedNames(names) && Readable(st)
    requires forall k :: 0 <= k < |atomNums| ==> pdbs[atomNums[k]] == names[k]
    modifies pdbs
    ensures forall k :: 0 <= k < |atomNums| ==> pdbs[atomNums[k]] == Rendered(names, st, Labels(st, |names|))[k]
    ensures forall m :: 0 <= m < pdbs.Length && m !in atomNums ==> pdbs[m] == old(pdbs[m])
  {
    var pdbNameCountDict: map<string, int> := map[];
    var uniquePDBs: seq<string> := [];
    var strippedPDBs: seq<string> := [];
    ReadStart(names, st);
    for i := 0 to |atomNums|
      invariant strippedPDBs == st[..i] && pdbNameCountDict == Tally(st[..i])
      invariant forall x :: x in uniquePDBs <==> x in pdbNameCountDict
      invariant forall k :: 0 <= k < |atomNums| ==> pdbs[atomNums[k]] == Rendered(names, st, Labels(st, i))[k]
      invariant forall m :: 0 <= m < pdbs.Length && m !in atomNums ==> pdbs[m] == old(pdbs[m])
    {
      pdbNameCountDict, uniquePDBs, strippedPDBs :=
        ReadName(pdbs, atomNums, i, pdbNameCountDict, uniquePDBs, strippedPDBs, names, st);
    }
  }

  /** Numbers the repeated names among the names at `atomNums`: each name
      is stripped of its number, a name whose stripped form has been seen
      before is numbered with its count, and at the second occurrence the
      first is numbered 1. The other names are left as they are. */
  method UniquatePDBs(pdbs: array<string>, atomNums: seq<int>)
    requires forall k :: 0 <= k < |atomNums| ==> 0 <= atomNums[k] < pdbs.Length
    requires Distinct(atomNums) && Readable(AtIndices(pdbs[..], atomNums))
    modifies pdbs
    ensures forall k :: 0 <= k < |atomNums| ==>
      pdbs[atomNums[k]] == Uniquated(AtIndices(old(pdbs[..]), atomNums), k)
    ensures forall m :: 0 <= m < pdbs.Length && m !in atomNums ==> pdbs[m] == old(pdbs[m])
  {
    ghost var names := AtIndices(pdbs[..], atomNums);
    StrippedReadable(names);
    ReadAll(pdbs, atomNums, names, StrippedNames(names));
    forall k | 0 <= k < |atomNums|
      ensures pdbs[atomNums[k]] == Uniquated(names, k)
    {
      RenderedUniquated(names, k);
    }
  }

  // ---------------------------------------------------------------------
  // Special characters in the names of a residue

  /** The names with their special characters stripped. */
  function SpecialNames(names: seq<string>): (r: seq<string>)
    requires Readable(names)
    ensures |r| == |names|
    decreases |names|
  {
    if names == [] then []
    else
      var n := |names| - 1;
      SpecialNames(names[..n]) + [StrippedSpecial(names[n])]
  }

  /** Each entry is its name with the special characters stripped. */
  lemma {:induction false} SpecialNamesAt(names: seq<string>, k: nat)
    requires Readable(names) && k < |names|
    ensures SpecialNames(names)[k] == StrippedSpecial(names[k])
    decreases |names|
  {
    var n := |names| - 1;
    if k < n {
      SpecialNamesAt(names[..n], k);
    }
  }

  /** Whether some name occurs twice in `xs`. */
  predicate HasRepeat(xs: seq<string>) {
    exists p, q :: 0 <= p < q < |xs| && xs[p] == xs[q]
  }

  /** One more name makes a repeat exactly when it was there already or
      it occurs before. */
  lemma HasRepeatSnoc(xs: seq<string>, i: nat)
    requires i < |xs|
    ensures HasRepeat(xs[..i + 1]) <==> HasRepeat(xs[..i]) || xs[i] in xs[..i]
  {
    var ys := xs[..i + 1];
    if HasRepeat(ys) {
      var p, q :| 0 <= p < q < |ys| && ys[p] == ys[q];
      if q == i {
        assert xs[..i][p] == xs[i];
      } else {
        assert xs[..i][p] == xs[..i][q];
      }
    }
    if xs[i] in xs[..i] {
      var p :| 0 <= p < i && xs[..i][p] == xs[i];
      assert ys[p] == ys[i];
    }
    if HasRepeat(xs[..i]) {
      var p, q :| 0 <= p < q < i && xs[..i][p] == xs[..i][q];
      assert ys[p] == ys[q];
    }
  }

  /** Strips the special characters from the `i`-th name, the names
      before it being stripped already. */
  method StripName(pdbs: array<string>, atomNums: seq<int>, i: nat, ghost names: seq<string>, ghost sp: seq<string>)
    requires forall k :: 0 <= k < |atomNums| ==> 0 <= atomNums[k] < pdbs.Length
    requires Distinct(atomNums) && i < |atomNums| == |names| && Readable(names) && sp == SpecialNames(names)
    requires forall k :: 0 <= k < i ==> pdbs[atomNums[k]] == sp[k]
    requires forall k :: i <= k < |atomNums| ==> pdbs[atomNums[k]] == names[k]
    modifies pdbs
    ensures forall k :: 0 <= k <= i ==> pdbs[atomNums[k]] == sp[k]
    ensures forall k :: i < k < |atomNums| ==> pdbs[atomNums[k]] == names[k]
    ensures forall m :: 0 <= m < pdbs.Length && m !in atomNums ==> pdbs[m] == old(pdbs[m])
  {
    var atomNum := atomNums[i];
    SpecialNamesAt(names, i);
    pdbs[atomNum] := StripPDBSpecialCharacters(pdbs[atomNum]);
    forall k | 0 <= k < |atomNums| && k != i
      ensures atomNums[k] != atomNum
    {
      DistinctAt(atomNums, k, i);
    }
  }

  /** After stripping every name, each is its name stripped. */
  lemma SpecialNamesAll(pdbs: seq<string>, atomNums: seq<int>, names: seq<string>)
    requires |atomNums| == |names| && Readable(names)
    requires forall k :: 0 <= k < |atomNums| ==> 0 <= atomNums[k] < |pdbs|
    requires forall k :: 0 <= k < |atomNums| ==> pdbs[atomNums[k]] == SpecialNames(names)[k]
    ensures forall k :: 0 <= k < |atomNums| ==> pdbs[atomNums[k]] == StrippedSpecial(names[k])
  {
    forall k | 0 <= k < |atomNums|
      ensures pdbs[atomNums[k]] == StrippedSpecial(names[k])
    {
      SpecialNamesAt(names, k);
    }
  }

  /** Strips the special characters from the names at `atomNums` and tells
      whether two of the stripped names are the same. */
  method RemovePDBSpecialCharacters(pdbs: array<string>, atomNums: seq<int>) returns (duplicates: bool)
    requires forall k :: 0 <= k < |atomNums| ==> 0 <= atomNums[k] < pdbs.Length
    requires Distinct(atomNums) && Readable(AtIndices(pdbs[..], atomNums))
    modifies pdbs
    ensures forall k :: 0 <= k < |atomNums| ==>
      pdbs[atomNums[k]] == StrippedSpecial(AtIndices(old(pdbs[..]), atomNums)[k])
    ensures duplicates <==> HasRepeat(SpecialNames(AtIndices(old(pdbs[..]), atomNums)))
    ensures forall m :: 0 <= m < pdbs.Length && m !in atomNums ==> pdbs[m] == old(pdbs[m])
  {
    ghost var names := AtIndices(pdbs[..], atomNums);
    ghost var sp := SpecialNames(names);
    duplicates := false;
    var uniquePDBs: seq<string> := [];
    for i := 0 to |atomNums|
      invariant forall k :: 0 <= k < i ==> pdbs[atomNums[k]] == sp[k]
      invariant forall k :: i <= k < |atomNums| ==> pdbs[atomNums[k]] == names[k]
      invariant forall x :: x in uniquePDBs <==> x in sp[..i]
      invariant duplicates <==> HasRepeat(sp[..i])
      invariant forall m :: 0 <= m < pdbs.Length && m !in atomNums ==> pdbs[m] == old(pdbs[m])
    {
      var atomNum := atomNums[i];
      StripName(pdbs, atomNums, i, names, sp);
      HasRepeatSnoc(sp, i);
      TakeSnoc(sp, i);
      if pdbs[atomNum] in uniquePDBs {
        duplicates := true;
      } else {
        uniquePDBs := uniquePDBs + [pdbs[atomNum]];
      }
    }
    SpecialNamesAll(pdbs[..], atomNums, names);
    assert sp[..|atomNums|] == sp;
  }
}
