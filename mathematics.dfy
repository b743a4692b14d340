/**
 * The integer helpers of `CustomMathematics`
 * (Assets/Mathematics/Mathematics.cs): powers, arg-min and arg-max, the
 * icosphere sizes, combined hashes and binomial coefficients.
 */
module CustomMathematics {
  import opened Wrappers

  /** The exceptions these helpers raise on bad input. */
  datatype MathError = EmptyInput

  /** 2^32: the cast `(uint)pow` adds it to a negative power. */
  const TwoTo32: int := 0x1_0000_0000

  function Pow(x: int, p: nat): int
  {
    if p == 0 then 1 else x * Pow(x, p - 1)
  }

  lemma {:induction false} PowAdd(x: int, a: nat, b: nat)
    ensures Pow(x, a + b) == Pow(x, a) * Pow(x, b)
    decreases a
  {
    if a > 0 {
      PowAdd(x, a - 1, b);
      assert Pow(x, a + b) == x * Pow(x, a - 1 + b);
    }
  }

  /** Squaring the base halves the exponent. */
  lemma {:induction false} PowSquare(x: int, p: nat)
    ensures Pow(x * x, p) == Pow(x, 2 * p)
  {
    if p > 0 {
      PowSquare(x, p - 1);
      PowAdd(x, 2, 2 * p - 2);
      var y := Pow(x, 2 * p - 2);
      assert Pow(x * x, p) == (x * x) * y;
      assert Pow(x, 2) == x * x by {
        assert Pow(x, 1) == x;
      }
      assert Pow(x, 2 * p) == (x * x) * y;
    }
  }

  /**
   * The square-and-multiply loop of `IntPow`: `p & 1` is `p % 2` and
   * `p >>= 1` is `p / 2` on the unsigned power.
   */
  method PowLoop(x: int, pow: nat) returns (result: int)
    ensures result == Pow(x, pow)
  {
    result := 1;
    var base := x;
    var p := pow;
    while p > 0
      invariant result * Pow(base, p) == Pow(x, pow)
      decreases p
    {
      PowSquare(base, p / 2);
      if p % 2 == 1 {
        PowAdd(base, 1, 2 * (p / 2));
        assert Pow(base, p) == base * Pow(base * base, p / 2);
        result := result * base;
      } else {
        assert Pow(base, p) == Pow(base * base, p / 2);
      }
      base := base * base;
      p := p / 2;
    }
  }

  /**
   * `IntPow(x, pow)` as written: the power is cast to an unsigned integer,
   * so a negative power p is taken as p + 2^32.
   */
  method IntPow(x: int, pow: int) returns (result: int)
    requires -TwoTo32 / 2 <= pow < TwoTo32 / 2
    ensures pow >= 0 ==> result == Pow(x, pow)
    ensures pow < 0 ==> result == Pow(x, pow + TwoTo32)
  {
    var unsigned: nat := if pow >= 0 then pow else pow + TwoTo32;
    result := PowLoop(x, unsigned);
  }

  /** `IntPow` as its comment describes it: a power of 0 or less gives 1. */
  method IntPowClamped(x: int, pow: int) returns (result: int)
    ensures pow <= 0 ==> result == 1
    ensures pow > 0 ==> result == Pow(x, pow)
  {
    if pow <= 0 {
      return 1;
    }
    result := PowLoop(x, pow);
  }

  lemma {:induction false} PowZeroBase(p: nat)
    requires p > 0
    ensures Pow(0, p) == 0
  {
  }

  lemma {:induction false} PowMinusOneOdd(p: nat)
    requires p % 2 == 1
    ensures Pow(-1, p) == -1
  {
    if p > 1 {
      PowMinusOneOdd(p - 2);
      assert Pow(-1, p) == -1 * (-1 * Pow(-1, p - 2));
    }
  }

  /**
   * As written, the power -1 is taken as 2^32 - 1: `IntPow(0, -1)` is 0 and
   * `IntPow(-1, -1)` is -1, where the comment promises 1.
   */
  lemma NegativePowerIsNotOne()
    ensures Pow(0, -1 + TwoTo32) == 0
    ensures Pow(-1, -1 + TwoTo32) == -1
  {
    PowZeroBase(-1 + TwoTo32);
    PowMinusOneOdd(-1 + TwoTo32);
  }

  /** `VerticesPerSphere(resolution)`: 10 * 4^r + 2 vertices. */
  function VerticesPerSphere(resolution: nat): int
  {
    Pow(4, resolution) * 10 + 2
  }

  /** `TrianglesPerSphere(resolution)`: 20 * 4^r triangles. */
  function TrianglesPerSphere(resolution: nat): int
  {
    Pow(4, resolution) * 20
  }

  lemma {:induction false} PowPositive(x: int, p: nat)
    requires x > 0
    ensures Pow(x, p) > 0
  {
    if p > 0 {
      PowPositive(x, p - 1);
    }
  }

  /**
   * The counts fit a closed triangulated sphere: Euler's formula
   * V - E + F = 2 with E = 3F/2 gives 2V = F + 4. Each subdivision splits
   * every triangle into 4 and adds one vertex per edge.
   */
  lemma SphereCounts(r: nat)
    ensures TrianglesPerSphere(0) == 20 && VerticesPerSphere(0) == 12
    ensures 2 * VerticesPerSphere(r) == TrianglesPerSphere(r) + 4
    ensures TrianglesPerSphere(r + 1) == 4 * TrianglesPerSphere(r)
    ensures VerticesPerSphere(r + 1) == VerticesPerSphere(r) + 3 * TrianglesPerSphere(r) / 2
    ensures TrianglesPerSphere(r) >= 20 && VerticesPerSphere(r) >= 12
  {
    assert Pow(4, r + 1) == 4 * Pow(4, r);
    PowPositive(4, r);
  }

  /**
   * `IndexOfMin(float[] v)` (and its `IList<float>` twin): the first index of
   * the smallest value; an empty input raises.
   */
  method IndexOfMin(v: seq<real>) returns (r: Result<nat, MathError>)
    ensures r.Err? <==> |v| == 0
    ensures r.Ok? ==> r.value < |v| && forall i :: 0 <= i < |v| ==> v[r.value] <= v[i]
    ensures r.Ok? ==> forall i :: 0 <= i < r.value ==> v[i] > v[r.value]
  {
    if |v| == 0 {
      return Err(EmptyInput);
    }
    var index := 0;
    var min := v[index];
    var i := 1;
    while i < |v|
      invariant 1 <= i <= |v| && index < i && min == v[index]
      invariant forall j :: 0 <= j < i ==> min <= v[j]
      invariant forall j :: 0 <= j < index ==> v[j] > min
    {
      if v[i] < min {
        min := v[i];
        index := i;
      }
      i := i + 1;
    }
    r := Ok(index);
  }

  /** `IndexOfMax(float[] v)`: the first index of the largest value; an empty input raises. */
  method IndexOfMax(v: seq<real>) returns (r: Result<nat, MathError>)
    ensures r.Err? <==> |v| == 0
    ensures r.Ok? ==> r.value < |v| && forall i :: 0 <= i < |v| ==> v[r.value] >= v[i]
    ensures r.Ok? ==> forall i :: 0 <= i < r.value ==> v[i] < v[r.value]
  {
    if |v| == 0 {
      return Err(EmptyInput);
    }
    var index := 0;
    var max := v[index];
    var i := 1;
    while i < |v|
      invariant 1 <= i <= |v| && index < i && max == v[index]
      invariant forall j :: 0 <= j < i ==> max >= v[j]
      invariant forall j :: 0 <= j < index ==> v[j] < max
    {
      if v[i] > max {
        max := v[i];
        index := i;
      }
      i := i + 1;
    }
    r := Ok(index);
  }

  /**
   * `GetCombinedHash(int hash0, int hash1)`: C# binds `+` tighter than `<<`
   * and `<<` tighter than `^`, so this is ((h0 << 6) + h0) ^ h1 on 32 bits.
   */
  function CombineHash(hash0: bv32, hash1: bv32): (h: bv32)
  {
    ((hash0 << 6) + hash0) ^ hash1
  }

  /** The shift-and-add is a multiplication by 65 modulo 2^32. */
  lemma CombineHashMultiplies(hash0: bv32, hash1: bv32)
    ensures CombineHash(hash0, hash1) == (hash0 * 65) ^ hash1
    ensures CombineHash(hash0, hash1) ^ hash1 == hash0 * 65
  {
  }

  /** The hashes folded from the left. */
  function FoldHashes(hashes: seq<bv32>): bv32
    requires |hashes| > 0
  {
    if |hashes| == 1 then hashes[0]
    else CombineHash(FoldHashes(hashes[..|hashes| - 1]), hashes[|hashes| - 1])
  }

  /**
   * `GetCombinedHash(params int[] hashes)`: raises on an empty list,
   * otherwise folds `GetCombinedHash(hash, hashes[i])` from the left.
   */
  method GetCombinedHash(hashes: seq<bv32>) returns (r: Result<bv32, MathError>)
    ensures r.Err? <==> |hashes| == 0
    ensures r.Ok? ==> r.value == FoldHashes(hashes)
    ensures |hashes| == 1 ==> r == Ok(hashes[0])
  {
    if |hashes| == 0 {
      return Err(EmptyInput);
    }
    var hash := hashes[0];
    var i := 1;
    while i < |hashes|
      invariant 1 <= i <= |hashes|
      invariant hash == FoldHashes(hashes[..i])
    {
      assert hashes[..i + 1][..i] == hashes[..i];
      hash := CombineHash(hash, hashes[i]);
      i := i + 1;
    }
    assert hashes[..i] == hashes;
    r := Ok(hash);
  }

  /** Appending one more hash combines it into the fold. */
  lemma FoldHashesSnoc(hashes: seq<bv32>, h: bv32)
    requires |hashes| > 0
    ensures FoldHashes(hashes + [h]) == CombineHash(FoldHashes(hashes), h)
  {
    assert (hashes + [h])[..|hashes|] == hashes;
  }

  function Fact(n: nat): nat
  {
    if n == 0 then 1 else n * Fact(n - 1)
  }

  /** n (n-1) ... (n-i+1): the numerator of n choose i. */
  function Falling(n: nat, i: nat): nat
    requires i <= n
  {
    if i == 0 then 1 else Falling(n, i - 1) * (n - i + 1)
  }

  lemma {:induction false} FactPositive(n: nat)
    ensures Fact(n) > 0
  {
    if n > 0 {
      FactPositive(n - 1);
    }
  }

  lemma MulAssoc(a: int, b: int, c: int)
    ensures (a * b) * c == a * (b * c)
  {
  }

  /** The falling factorial times (n-i)! is n!. */
  lemma {:induction false} FallingTimesFact(n: nat, i: nat)
    requires i <= n
    ensures Falling(n, i) * Fact(n - i) == Fact(n)
  {
    if i > 0 {
      var j := i - 1;
      FallingTimesFact(n, j);
      var a, m, f := Falling(n, j), n - i + 1, Fact(n - i);
      assert n - j == m && m - 1 == n - i;
      assert Fact(n - j) == m * f;
      assert Falling(n, i) == a * m;
      MulAssoc(a, m, f);
    }
  }

  /**
   * The fraction Falling(n, i) / i! is n! / (i! (n-i)!): cross-multiplied,
   * Falling(n, i) * i! * (n-i)! == n! * i!.
   */
  lemma FractionIsChoose(n: nat, i: nat)
    requires i <= n
    ensures Falling(n, i) * Fact(n - i) * Fact(i) == Fact(n) * Fact(i)
    ensures Falling(n, i) * Fact(i) * Fact(n - i) == Fact(n) * Fact(i)
  {
    FallingTimesFact(n, i);
    MulAssoc(Falling(n, i), Fact(i), Fact(n - i));
    MulAssoc(Falling(n, i), Fact(n - i), Fact(i));
  }

  /**
   * `Binomial(n, k)`: 0 outside 0..n, 1 at either end, otherwise the
   * product of (n-i)/(i+1) over i < min(k, n-k). The product is kept as
   * the exact fraction num/den of its factors; the source's float
   * rounding is not modelled.
   */
  method Binomial(n: int, k: int) returns (num: int, den: int)
    ensures k < 0 || k > n ==> num == 0 && den == 1
    ensures 0 <= k <= n && (k == 0 || k == n) ==> num == 1 && den == 1
    ensures 0 < k < n ==> den > 0 && num * Fact(k) * Fact(n - k) == Fact(n) * den
  {
    if k < 0 || k > n {
      return 0, 1;
    }
    if k == 0 || k == n {
      return 1, 1;
    }
    var kk := if k < n - k then k else n - k;
    num, den := 1, 1;
    var i := 0;
    while i < kk
      invariant 0 <= i <= kk
      invariant num == Falling(n, i) && den == Fact(i)
    {
      num, den := num * (n - i), den * (i + 1);
      i := i + 1;
    }
    ChooseFraction(n, k, kk);
  }

  /** The loop may stop at k or at n - k: either way the fraction is n choose k. */
  lemma ChooseFraction(n: nat, k: nat, kk: nat)
    requires k <= n && (kk == k || kk == n - k)
    ensures Fact(kk) > 0
    ensures Falling(n, kk) * Fact(k) * Fact(n - k) == Fact(n) * Fact(kk)
  {
    FactPositive(kk);
    FractionIsChoose(n, kk);
    assert kk != k ==> n - kk == k;
  }
}
