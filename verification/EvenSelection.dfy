/** Evenly spaced selection from a sorted list, by the integer line-drawing formula. */
module EvenSelection {
  import opened Arithmetic
  import opened Basics

  /** Position of the i-th of `m` picks from `n` items. */
  function Index(i: nat, m: nat, n: nat): nat
    requires m > 0
  {
    var x: nat, y: nat := i * n, 2 * m;
    DivBounds(x, m);
    DivBounds(n, y);
    x / m + n / y
  }

  /** Neighbouring picks are `n / m` or `n / m + 1` apart: as even as whole positions allow. */
  lemma EvenGaps(i: nat, m: nat, n: nat)
    requires m > 0
    ensures Index(i + 1, m, n) - Index(i, m, n) == n / m || Index(i + 1, m, n) - Index(i, m, n) == n / m + 1
  {
    Distribute(i, 1, n);
    FloorOfSum(i * n, n, m);
  }

  lemma {:induction false} Increasing(i: nat, j: nat, m: nat, n: nat)
    requires i < j && 0 < m <= n
    ensures Index(i, m, n) < Index(j, m, n)
    decreases j
  {
    EvenGaps(j - 1, m, n);
    assert n / m >= 1 by { DivBounds(n, m); }
    if i < j - 1 {
      Increasing(i, j - 1, m, n);
    }
  }

  lemma InRange(i: nat, m: nat, n: nat)
    requires i < m && n > 0
    ensures Index(i, m, n) < n
  {
    var x: nat, y: nat := i * n, 2 * m;
    var a, b := x / m, n / y;
    DivBounds(x, m);
    DivBounds(n, y);
    Distribute(i, 1, n);
    MulMonotone(i + 1, m, n);
    SumBelow(a, b, m, n, x);
  }

  lemma SumBelow(a: nat, b: nat, m: nat, n: nat, x: nat)
    requires m > 0 && n > 0 && a * m <= x && b * (2 * m) <= n && x + n <= m * n
    ensures a + b < n
  {
    assert b * (2 * m) == 2 * (b * m);
    Distribute(a, b, m);
    if a + b >= n {
      MulMonotone(n, a + b, m);
    }
  }

  /** The keys picked from a sorted key list. */
  function Pick<K>(keys: seq<K>, num: nat): (r: seq<K>)
  {
    if num > |keys| then keys
    else seq(num, i requires 0 <= i < num => (InRange(i, num, |keys|); keys[Index(i, num, |keys|)]))
  }

  /** Exactly `num` keys when there are that many, all of them otherwise, each picked once. */
  lemma PickExact<K>(keys: seq<K>, num: nat)
    requires Distinct(keys)
    ensures |Pick(keys, num)| == if num <= |keys| then num else |keys|
    ensures Distinct(Pick(keys, num))
    ensures forall k :: k in Pick(keys, num) ==> k in keys
  {
    if num <= |keys| {
      forall i, j | 0 <= i < j < num
        ensures Pick(keys, num)[i] != Pick(keys, num)[j]
      {
        InRange(i, num, |keys|);
        InRange(j, num, |keys|);
        Increasing(i, j, num, |keys|);
      }
      forall k | k in Pick(keys, num)
        ensures k in keys
      {
        var i :| 0 <= i < num && Pick(keys, num)[i] == k;
        InRange(i, num, |keys|);
      }
    }
  }

  /** Where the picked keys come from: the first is half a gap into the list, and neighbours are as even as whole
      positions allow. */
  lemma PickPositions<K>(keys: seq<K>, num: nat) returns (pos: seq<nat>, first: nat, gap: nat)
    requires 0 < num <= |keys|
    ensures first == |keys| / (2 * num) && gap == |keys| / num
    ensures |pos| == num == |Pick(keys, num)| && pos[0] == first
    ensures forall i :: 0 <= i < num ==> pos[i] < |keys| && Pick(keys, num)[i] == keys[pos[i]]
    ensures forall i :: 0 < i < num ==> pos[i - 1] + gap <= pos[i] <= pos[i - 1] + gap + 1
  {
    pos, first, gap := EvenPositions(num, |keys|);
    PickAt(keys, num, pos);
  }

  /** The positions, as a list. */
  lemma EvenPositions(m: nat, n: nat) returns (pos: seq<nat>, first: nat, gap: nat)
    requires 0 < m <= n
    ensures first == n / (2 * m) && gap == n / m
    ensures |pos| == m && pos[0] == first && forall i :: 0 <= i < m ==> pos[i] == Index(i, m, n)
    ensures forall i :: 0 < i < m ==> pos[i - 1] + gap <= pos[i] <= pos[i - 1] + gap + 1
  {
    DivBounds(n, m);
    DivBounds(n, 2 * m);
    IndexZero(m, n);
    first, gap := n / (2 * m), n / m;
    pos := seq(m, i requires 0 <= i < m => Index(i, m, n));
    forall i | 0 < i < m
      ensures pos[i - 1] + gap <= pos[i] <= pos[i - 1] + gap + 1
    {
      GapBounds(i - 1, m, n, gap);
    }
  }

  lemma GapBounds(i: nat, m: nat, n: nat, gap: nat)
    requires m > 0 && gap == n / m
    ensures Index(i, m, n) + gap <= Index(i + 1, m, n) <= Index(i, m, n) + gap + 1
  {
    EvenGaps(i, m, n);
  }

  lemma PickAt<K>(keys: seq<K>, num: nat, pos: seq<nat>)
    requires 0 < num <= |keys| && |pos| == num && forall i :: 0 <= i < num ==> pos[i] == Index(i, num, |keys|)
    ensures |Pick(keys, num)| == num && forall i :: 0 <= i < num ==> pos[i] < |keys| && Pick(keys, num)[i] == keys[pos[i]]
  {
    forall i | 0 <= i < num
      ensures pos[i] < |keys| && Pick(keys, num)[i] == keys[pos[i]]
    {
      InRange(i, num, |keys|);
    }
  }

  lemma IndexZero(m: nat, n: nat)
    requires m > 0
    ensures Index(0, m, n) == n / (2 * m)
  {
    DivUnique(0, m, 0);
  }

  /** A request for more than there are takes the whole list. */
  lemma PickAll<K>(keys: seq<K>, num: nat)
    requires num > |keys|
    ensures Pick(keys, num) == keys
  {
  }
}
