/**
 * The general-purpose helpers of Assets/Extensions/Extensions.cs: the
 * bidirectional `Map`, `UpperTriangle`, `Shuffle` and the null-safe string
 * `Contains`.
 */
module Extensions {
  import opened Wrappers
  import Arith

  /** The exceptions `Map` raises. */
  datatype MapError = DuplicateKey | DuplicateValue | KeyNotFound

  /** Two dictionaries that undo each other: every entry is mirrored. */
  ghost predicate Inverse<K, V>(forward: map<K, V>, reverse: map<V, K>) {
    (forall k :: k in forward ==> forward[k] in reverse && reverse[forward[k]] == k) &&
    (forall v :: v in reverse ==> reverse[v] in forward && forward[reverse[v]] == v)
  }

  /**
   * `Map<T1, T2>`: a dictionary kept together with its reverse. The two
   * dictionaries are fields that the operations update in place.
   */
  class Map<K(==), V(==)> {
    var forward: map<K, V>
    var reverse: map<V, K>

    ghost predicate Valid()
      reads this
    {
      Inverse(forward, reverse)
    }

    constructor ()
      ensures Valid() && forward == map[] && reverse == map[]
    {
      forward := map[];
      reverse := map[];
    }

    /** `Add(key, value)`: refuses a key or a value already present. */
    method Add(key: K, value: V) returns (r: Result<(), MapError>)
      modifies this
      ensures old(Valid()) ==> Valid()
      ensures key in old(forward) ==> r == Err(DuplicateKey)
      ensures key !in old(forward) && value in old(reverse) ==> r == Err(DuplicateValue)
      ensures r.Err? ==> forward == old(forward) && reverse == old(reverse)
      ensures r.Ok? <==> key !in old(forward) && value !in old(reverse)
      ensures r.Ok? ==> forward == old(forward)[key := value] && reverse == old(reverse)[value := key]
    {
      if key in forward {
        return Err(DuplicateKey);
      }
      if value in reverse {
        return Err(DuplicateValue);
      }
      forward := forward[key := value];
      reverse := reverse[value := key];
      r := Ok(());
    }

    /**
     * `Remove(key, value)`: false when the key or the value is absent,
     * otherwise both entries are dropped. It does not check that the key
     * maps to this value (see `RemoveMismatchBreaksInverse`).
     */
    method Remove(key: K, value: V) returns (removed: bool)
      modifies this
      ensures removed <==> key in old(forward) && value in old(reverse)
      ensures removed ==> forward == old(forward) - {key} && reverse == old(reverse) - {value}
      ensures !removed ==> forward == old(forward) && reverse == old(reverse)
    {
      if key !in forward {
        return false;
      }
      if value !in reverse {
        return false;
      }
      forward := forward - {key};
      reverse := reverse - {value};
      removed := true;
    }

    /** `Remove(key, value)` as evidently intended: only a mirrored pair is removed. */
    method RemovePair(key: K, value: V) returns (removed: bool)
      requires Valid()
      modifies this
      ensures Valid()
      ensures removed <==> key in old(forward) && old(forward)[key] == value
      ensures removed ==> forward == old(forward) - {key} && reverse == old(reverse) - {value}
      ensures !removed ==> forward == old(forward) && reverse == old(reverse)
    {
      if key !in forward || forward[key] != value {
        return false;
      }
      forward := forward - {key};
      reverse := reverse - {value};
      removed := true;
    }

    /**
     * `Remove(T1 key)`: looks the value up (failing on a missing key) and
     * removes the pair through `Remove(key, value)`, which reports false
     * when that value has no reverse entry. On mirrored dictionaries the
     * removal always succeeds.
     */
    method RemoveKey(key: K) returns (r: Result<bool, MapError>)
      modifies this
      ensures old(Valid()) ==> Valid()
      ensures r.Err? <==> key !in old(forward)
      ensures r.Err? ==> r.error == KeyNotFound && forward == old(forward) && reverse == old(reverse)
      ensures r.Ok? ==> (r.value <==> old(forward)[key] in old(reverse))
      ensures r.Ok? && r.value ==> forward == old(forward) - {key} && reverse == old(reverse) - {old(forward)[key]}
      ensures r.Ok? && !r.value ==> forward == old(forward) && reverse == old(reverse)
      ensures old(Valid()) && r.Ok? ==> r.value
    {
      if key !in forward {
        return Err(KeyNotFound);
      }
      var removed := Remove(key, forward[key]);
      r := Ok(removed);
    }

    /** `Remove(T2 value)`: the same from the reverse side. */
    method RemoveValue(value: V) returns (r: Result<bool, MapError>)
      modifies this
      ensures old(Valid()) ==> Valid()
      ensures r.Err? <==> value !in old(reverse)
      ensures r.Err? ==> r.error == KeyNotFound && forward == old(forward) && reverse == old(reverse)
      ensures r.Ok? ==> (r.value <==> old(reverse)[value] in old(forward))
      ensures r.Ok? && r.value ==> forward == old(forward) - {old(reverse)[value]} && reverse == old(reverse) - {value}
      ensures r.Ok? && !r.value ==> forward == old(forward) && reverse == old(reverse)
      ensures old(Valid()) && r.Ok? ==> r.value
    {
      if value !in reverse {
        return Err(KeyNotFound);
      }
      var removed := Remove(reverse[value], value);
      r := Ok(removed);
    }

    /** `TryGetValue(key, out value)`: on mirrored dictionaries the value maps back to the key. */
    function TryGetValue(key: K): (r: Option<V>)
      reads this
      ensures r.Some? <==> key in forward
      ensures r.Some? ==> r.value == forward[key]
      ensures Valid() && r.Some? ==> r.value in reverse && reverse[r.value] == key
    {
      if key in forward then Some(forward[key]) else None
    }

    /** `TryGetValue(value, out key)`: on mirrored dictionaries the key maps back to the value. */
    function TryGetKey(value: V): (r: Option<K>)
      reads this
      ensures r.Some? <==> value in reverse
      ensures r.Some? ==> r.value == reverse[value]
      ensures Valid() && r.Some? ==> r.value in forward && forward[r.value] == value
    {
      if value in reverse then Some(reverse[value]) else None
    }

    /**
     * The setter of `this[T1 k]`: drops the reverse entry of the value,
     * then writes both directions. It leaves behind the old value's
     * reverse entry and the value's old key (see `SetByKeyLeavesStaleEntries`).
     */
    method SetByKey(k: K, v: V)
      modifies this
      ensures forward == old(forward)[k := v]
      ensures reverse == (old(reverse) - {v})[v := k]
    {
      reverse := reverse - {v};
      forward := forward[k := v];
      reverse := reverse[v := k];
    }

    /** The setter of `this[T2 v]`: the mirror image of `SetByKey`. */
    method SetByValue(v: V, k: K)
      modifies this
      ensures reverse == old(reverse)[v := k]
      ensures forward == (old(forward) - {k})[k := v]
    {
      forward := forward - {k};
      reverse := reverse[v := k];
      forward := forward[k := v];
    }

    /**
     * The key setter as evidently intended: the pairs that held `k` or
     * `v` before are removed first, so the two dictionaries stay mirrored.
     */
    method Put(k: K, v: V)
      requires Valid()
      modifies this
      ensures Valid()
      ensures k in forward && forward[k] == v && v in reverse && reverse[v] == k
      ensures forall k' :: k' in forward && k' != k ==> k' in old(forward) && forward[k'] == old(forward)[k'] && old(forward)[k'] != v
      ensures forall k' :: k' in old(forward) && k' != k && old(forward)[k'] != v ==> k' in forward
    {
      if k in forward {
        reverse := reverse - {forward[k]};
        forward := forward - {k};
      }
      if v in reverse {
        forward := forward - {reverse[v]};
        reverse := reverse - {v};
      }
      forward := forward[k := v];
      reverse := reverse[v := k];
    }

    /** `Clear()`. */
    method Clear()
      modifies this
      ensures Valid() && forward == map[] && reverse == map[]
    {
      forward := map[];
      reverse := map[];
    }
  }

  /**
   * `Remove(key, value)` as written breaks the mirror: with 1 -> 'a' and
   * 2 -> 'b', removing (1, 'b') leaves 2 -> 'b' while 'a' still points back
   * to 1, which is gone.
   */
  lemma RemoveMismatchBreaksInverse()
    ensures Inverse(map[1 := 'a', 2 := 'b'], map['a' := 1, 'b' := 2])
    ensures !Inverse(map[1 := 'a', 2 := 'b'] - {1}, map['a' := 1, 'b' := 2] - {'b'})
  {
    var f := map[1 := 'a', 2 := 'b'] - {1};
    var r := map['a' := 1, 'b' := 2] - {'b'};
    assert 'a' in r && r['a'] !in f;
  }

  /**
   * The key setter as written breaks the mirror: with 1 -> 'a', setting
   * this[1] = 'b' leaves 'a' pointing back to 1, which now holds 'b'.
   */
  lemma SetByKeyLeavesStaleEntries()
    ensures Inverse(map[1 := 'a'], map['a' := 1])
    ensures !Inverse(map[1 := 'a'][1 := 'b'], (map['a' := 1] - {'b'})['b' := 1])
  {
    var f := map[1 := 'a'][1 := 'b'];
    var r := (map['a' := 1] - {'b'})['b' := 1];
    assert 'a' in r && f[r['a']] == 'b';
  }

  /** Row i of the upper triangle: xs[i] paired with every later element. */
  function Row<T>(xs: seq<T>, i: nat): (row: seq<(T, T)>)
    requires i < |xs|
  {
    seq(|xs| - 1 - i, j requires 0 <= j < |xs| - 1 - i => (xs[i], xs[i + 1 + j]))
  }

  /** The first `i` rows of the upper triangle, in the order they are yielded. */
  function Rows<T>(xs: seq<T>, i: nat): seq<(T, T)>
    requires i <= |xs|
  {
    if i == 0 then [] else Rows(xs, i - 1) + Row(xs, i - 1)
  }

  /**
   * `UpperTriangle`: for each item, every item after it. The nested
   * loops of the iterator are the two loops here.
   */
  method UpperTriangle<T>(xs: seq<T>) returns (pairs: seq<(T, T)>)
    ensures pairs == Rows(xs, |xs|)
  {
    pairs := [];
    var i := 0;
    while i < |xs|
      invariant 0 <= i <= |xs|
      invariant pairs == Rows(xs, i)
    {
      var j := i + 1;
      ghost var before := pairs;
      while j < |xs|
        invariant i + 1 <= j <= |xs|
        invariant pairs == before + Row(xs, i)[..j - i - 1]
      {
        assert Row(xs, i)[..j - i] == Row(xs, i)[..j - i - 1] + [(xs[i], xs[j])];
        pairs := pairs + [(xs[i], xs[j])];
        j := j + 1;
      }
      assert Row(xs, i)[..j - i - 1] == Row(xs, i);
      i := i + 1;
    }
  }

  /** The triangle holds exactly the pairs (xs[i], xs[j]) with i < j. */
  lemma {:induction false} RowsMembers<T>(xs: seq<T>, n: nat, p: (T, T))
    requires n <= |xs|
    ensures p in Rows(xs, n) <==> exists i, j :: 0 <= i < n && i < j < |xs| && p == (xs[i], xs[j])
  {
    if n > 0 {
      RowsMembers(xs, n - 1, p);
      var row := Row(xs, n - 1);
      if p in row {
        var t :| 0 <= t < |row| && row[t] == p;
        assert p == (xs[n - 1], xs[n + t]);
      }
      if exists j :: n - 1 < j < |xs| && p == (xs[n - 1], xs[j]) {
        var j :| n - 1 < j < |xs| && p == (xs[n - 1], xs[j]);
        assert row[j - n] == p;
      }
    }
  }

  /** The triangle of n items has n(n-1)/2 pairs (counted twice to stay in whole numbers). */
  lemma {:induction false} RowsCount<T>(xs: seq<T>, n: nat)
    requires n <= |xs|
    ensures 2 * |Rows(xs, n)| == n * (2 * |xs| - n - 1)
  {
    if n > 0 {
      RowsCount(xs, n - 1);
      var m := n - 1;
      assert n * (2 * |xs| - n - 1) == m * (2 * |xs| - m - 1) + 2 * (|xs| - 1 - m) by {
        Arith.Distrib(m, 2 * |xs| - m - 1, -1);
        Arith.Distrib(2 * |xs| - m - 2, m, 1);
      }
    }
  }

  /** For the whole list the count is n(n-1)/2. */
  lemma UpperTriangleCount<T>(xs: seq<T>)
    ensures 2 * |Rows(xs, |xs|)| == |xs| * (|xs| - 1)
  {
    RowsCount(xs, |xs|);
  }

  /** `xs` with positions i and j exchanged. */
  function Swap<T>(xs: seq<T>, i: nat, j: nat): (r: seq<T>)
    requires i < |xs| && j < |xs|
    ensures |r| == |xs|
  {
    xs[i := xs[j]][j := xs[i]]
  }

  /** The random draws: `pick[k]`, drawn while the loop is at k, lies in 0..k. */
  ghost predicate DrawsFit(pick: seq<nat>, n: nat) {
    n <= |pick| && forall k :: 0 <= k < n ==> pick[k] <= k
  }

  /**
   * The swaps of the shuffle from position `i` down to `lowest`; at `i`
   * the element is exchanged with the one at `pick[i]`, the random draw
   * `Next(i + 1)`, which lies in 0..i.
   */
  function ShuffleFrom<T>(xs: seq<T>, pick: seq<nat>, i: int, lowest: nat): (r: seq<T>)
    requires i < |xs| && DrawsFit(pick, |xs|)
    decreases i
  {
    if i < lowest || i < 0 then xs else ShuffleFrom(Swap(xs, pick[i], i), pick, i - 1, lowest)
  }

  /** Whatever the draws, the shuffle returns a permutation of its input. */
  lemma {:induction false} ShuffleFromPermutes<T>(xs: seq<T>, pick: seq<nat>, i: int, lowest: nat)
    requires i < |xs| && DrawsFit(pick, |xs|)
    ensures |ShuffleFrom(xs, pick, i, lowest)| == |xs|
    ensures multiset(ShuffleFrom(xs, pick, i, lowest)) == multiset(xs)
    decreases i
  {
    if !(i < lowest || i < 0) {
      var swapped := Swap(xs, pick[i], i);
      assert multiset(swapped) == multiset(xs) by { SwapPermutes(xs, pick[i], i); }
      ShuffleFromPermutes(swapped, pick, i - 1, lowest);
    }
  }

  lemma SwapPermutes<T>(xs: seq<T>, i: nat, j: nat)
    requires i < |xs| && j < |xs|
    ensures multiset(Swap(xs, i, j)) == multiset(xs)
  {
  }

  /** The loop of `Shuffle`, run down to `lowest`. */
  method SwapDown<T>(a: array<T>, pick: seq<nat>, lowest: nat)
    requires DrawsFit(pick, a.Length)
    modifies a
    ensures a[..] == ShuffleFrom(old(a[..]), pick, a.Length - 1, lowest)
    ensures multiset(a[..]) == multiset(old(a[..]))
  {
    var i := a.Length - 1;
    while i >= lowest && i >= 0
      invariant -1 <= i < a.Length
      invariant ShuffleFrom(a[..], pick, i, lowest) == ShuffleFrom(old(a[..]), pick, a.Length - 1, lowest)
      invariant multiset(a[..]) == multiset(old(a[..]))
    {
      var randIndex := pick[i];
      ghost var before := a[..];
      var temp := a[randIndex];
      a[randIndex] := a[i];
      a[i] := temp;
      assert a[..] == Swap(before, randIndex, i);
      i := i - 1;
    }
  }

  /** `Shuffle` as written: the loop runs while i > 1, so the swap at i = 1 never happens. */
  method Shuffle<T>(a: array<T>, pick: seq<nat>)
    requires DrawsFit(pick, a.Length)
    modifies a
    ensures a[..] == ShuffleFrom(old(a[..]), pick, a.Length - 1, 2)
    ensures multiset(a[..]) == multiset(old(a[..]))
  {
    SwapDown(a, pick, 2);
  }

  /** `Shuffle` as evidently intended: a full Fisher-Yates pass, down to i = 1. */
  method ShuffleFull<T>(a: array<T>, pick: seq<nat>)
    requires DrawsFit(pick, a.Length)
    modifies a
    ensures a[..] == ShuffleFrom(old(a[..]), pick, a.Length - 1, 1)
    ensures multiset(a[..]) == multiset(old(a[..]))
  {
    SwapDown(a, pick, 1);
  }

  /** As written, a two-element list comes back unchanged whatever the draws. */
  lemma ShuffleKeepsPairs<T>(xs: seq<T>, pick: seq<nat>)
    requires |xs| == 2 && DrawsFit(pick, 2)
    ensures ShuffleFrom(xs, pick, 1, 2) == xs
  {
  }

  /** With the last step in place, the draw 0 at i = 1 exchanges the two elements. */
  lemma ShuffleFullSwapsPairs<T>(xs: seq<T>, pick: seq<nat>)
    requires |xs| == 2 && DrawsFit(pick, 2) && pick[1] == 0
    ensures ShuffleFrom(xs, pick, 1, 1) == [xs[1], xs[0]]
  {
    var swapped := Swap(xs, 0, 1);
    assert ShuffleFrom(xs, pick, 1, 1) == ShuffleFrom(swapped, pick, 0, 1);
    assert ShuffleFrom(swapped, pick, 0, 1) == swapped;
  }

  /** `v` occurs in `s` starting at position `i`. */
  predicate OccursAt(s: string, v: string, i: nat) {
    i + |v| <= |s| && s[i..i + |v|] == v
  }

  /** First index at or after `from` where `v` occurs in `s`. */
  function IndexOf(s: string, v: string, from: nat): (r: Option<nat>)
    requires from <= |s|
    ensures r.Some? ==> from <= r.value && OccursAt(s, v, r.value)
    ensures r.Some? ==> forall i :: from <= i < r.value ==> !OccursAt(s, v, i)
    ensures r.None? ==> forall i :: from <= i ==> !OccursAt(s, v, i)
    decreases |s| - from
  {
    if from + |v| > |s| then None
    else if s[from..from + |v|] == v then Some(from)
    else IndexOf(s, v, from + 1)
  }

  /**
   * `Contains(str, value, comparison)` with the ordinal comparison: false
   * when either string is null (None) or empty, otherwise whether `value`
   * occurs in `str`.
   */
  function Contains(str: Option<string>, value: Option<string>): (r: bool)
    ensures r <==> (str.Some? && value.Some? && str.value != [] && value.value != [] &&
      exists i :: OccursAt(str.value, value.value, i))
  {
    if str.None? || value.None? || str.value == [] || value.value == [] then false
    else
      var found := IndexOf(str.value, value.value, 0);
      assert found.Some? ==> OccursAt(str.value, value.value, found.value);
      found.Some?
  }
}
