/** The tree of caches and testers of the memory checker configuration: a recursive builder with a per-level index, and
    the closed-form count of its testers. */
module CacheTree {
  import opened Arithmetic
  import opened Basics
  import opened Text

  // ----- the specification lists -----

  ghost predicate ValidSpec(caches: seq<int>, testers: seq<int>) {
    && |caches| >= 1 && |testers| == |caches| + 1
    && testers[|testers| - 1] != 0
    && (forall i :: 0 <= i < |testers| ==> testers[i] >= 0)
    && (forall i :: 0 <= i < |caches| ==> caches[i] >= 1)
  }

  /** The sanity checks on the two options. */
  method CheckSpec(caches: seq<int>, testers: seq<int>) returns (ok: bool)
    ensures ok <==> ValidSpec(caches, testers)
  {
    if |caches| < 1 || |caches| != |testers| - 1 {
      return false;
    }
    if testers[|testers| - 1] == 0 {
      return false;
    }
    for i := 0 to |testers|
      invariant forall k :: 0 <= k < i ==> testers[k] >= 0
    {
      if testers[i] < 0 {
        return false;
      }
    }
    for i := 0 to |caches|
      invariant forall k :: 0 <= k < i ==> caches[k] >= 1
    {
      if caches[i] < 1 {
        return false;
      }
    }
    return true;
  }

  // ----- counting -----

  /** How many subsystems of depth `e` a subsystem of depth `d` fans out to. */
  function Width(caches: seq<nat>, d: nat, e: nat): nat
    requires d <= e <= |caches|
    decreases e - d
  {
    if d == e then 1 else caches[d] * Width(caches, d + 1, e)
  }

  /** Testers in the subtree of one subsystem of depth `d`. */
  function Testers(caches: seq<nat>, testers: seq<nat>, d: nat): nat
    requires d <= |caches| && |testers| == |caches| + 1
    decreases |caches| - d
  {
    testers[d] + if d < |caches| then caches[d] * Testers(caches, testers, d + 1) else 0
  }

  /** The sum over depths from `j` of testers times fan-out from depth `d`. */
  function Spread(caches: seq<nat>, testers: seq<nat>, d: nat, j: nat): nat
    requires d <= j <= |caches| + 1 && |testers| == |caches| + 1
    decreases |caches| + 1 - j
  {
    if j == |caches| + 1 then 0 else testers[j] * Width(caches, d, j) + Spread(caches, testers, d, j + 1)
  }

  lemma {:induction false} SpreadScales(caches: seq<nat>, testers: seq<nat>, d: nat, j: nat)
    requires d < |caches| && d < j <= |caches| + 1 && |testers| == |caches| + 1
    ensures Spread(caches, testers, d, j) == caches[d] * Spread(caches, testers, d + 1, j)
    decreases |caches| + 1 - j
  {
    if j <= |caches| {
      SpreadScales(caches, testers, d, j + 1);
      var c, t, w, s := caches[d], testers[j], Width(caches, d + 1, j), Spread(caches, testers, d + 1, j + 1);
      assert t * (c * w) == c * (t * w);
      assert c * (t * w + s) == c * (t * w) + c * s;
    }
  }

  /** The testers below a subsystem are the sum over all depths of testers times fan-out. */
  lemma {:induction false} TestersSpread(caches: seq<nat>, testers: seq<nat>, d: nat)
    requires d <= |caches| && |testers| == |caches| + 1
    ensures Testers(caches, testers, d) == Spread(caches, testers, d, d)
    decreases |caches| - d
  {
    if d < |caches| {
      TestersSpread(caches, testers, d + 1);
      SpreadScales(caches, testers, d, d + 1);
    }
  }

  lemma {:induction false} WidthLast(caches: seq<nat>, d: nat, e: nat)
    requires d <= e < |caches|
    ensures Width(caches, d, e + 1) == Width(caches, d, e) * caches[e]
    decreases e - d
  {
    if d < e {
      WidthLast(caches, d + 1, e);
      var c, w, x := caches[d], Width(caches, d + 1, e), caches[e];
      assert c * (w * x) == (c * w) * x;
    }
  }

  /** How many subsystems each depth has: one at the root, and below it those of the depth above times its caches. */
  ghost predicate Fanouts(caches: seq<nat>, counts: seq<nat>) {
    && |counts| == |caches| + 1 && counts[0] == 1
    && forall d :: 0 <= d < |caches| ==> counts[d + 1] == counts[d] * caches[d]
  }

  /** The sum of the products of the first `k` entries. */
  ghost function SumOfProducts(a: seq<nat>, b: seq<nat>, k: nat): nat
    requires k <= |a| && k <= |b|
  {
    if k == 0 then 0 else SumOfProducts(a, b, k - 1) + a[k - 1] * b[k - 1]
  }

  lemma {:induction false} FanoutsAreWidths(caches: seq<nat>, counts: seq<nat>, d: nat)
    requires Fanouts(caches, counts) && d <= |caches|
    ensures counts[d] == Width(caches, 0, d)
  {
    if d > 0 {
      FanoutsAreWidths(caches, counts, d - 1);
      WidthLast(caches, 0, d - 1);
      assert counts[(d - 1) + 1] == counts[d - 1] * caches[d - 1];
    }
  }

  lemma {:induction false} SpreadIsSum(caches: seq<nat>, testers: seq<nat>, counts: seq<nat>, k: nat)
    requires Fanouts(caches, counts) && |testers| == |caches| + 1 && k <= |testers|
    ensures SumOfProducts(testers, counts, k) + Spread(caches, testers, 0, k) == Spread(caches, testers, 0, 0)
  {
    if k > 0 {
      SpreadIsSum(caches, testers, counts, k - 1);
      FanoutsAreWidths(caches, counts, k - 1);
    }
  }

  /** The running products and the tester total computed from them. */
  method NumTesters(caches: seq<nat>, testers: seq<nat>) returns (multiplier: seq<nat>, total: nat)
    requires |testers| == |caches| + 1
    ensures |multiplier| == |testers| && forall j :: 0 <= j < |multiplier| ==> multiplier[j] == Width(caches, 0, j)
    ensures Fanouts(caches, multiplier) && total == SumOfProducts(testers, multiplier, |testers|)
    ensures total == Spread(caches, testers, 0, 0)
  {
    multiplier := [1];
    for i := 0 to |caches|
      invariant |multiplier| == i + 1 && forall j :: 0 <= j <= i ==> multiplier[j] == Width(caches, 0, j)
    {
      WidthLast(caches, 0, i);
      multiplier := multiplier + [multiplier[|multiplier| - 1] * caches[i]];
    }
    forall d | 0 <= d < |caches|
      ensures multiplier[d + 1] == multiplier[d] * caches[d]
    {
      WidthLast(caches, 0, d);
    }
    SpreadIsSum(caches, testers, multiplier, |testers|);
    total := 0;
    for j := 0 to |testers|
      invariant total + Spread(caches, testers, 0, j) == Spread(caches, testers, 0, 0)
    {
      total := total + testers[j] * multiplier[j];
    }
  }

  // ----- prototypes -----

  datatype Proto = Proto(size: nat, assoc: nat, mshrs: nat, latency: nat)

  function Scaled(p: Proto, scale: nat): Proto {
    Proto(p.size * scale, p.assoc * scale, p.mshrs * scale, p.latency * 10)
  }

  /** The prototype after the scales of the first `k` levels. */
  function ScaledBy(l1: Proto, scales: seq<nat>): Proto {
    if scales == [] then l1 else Scaled(ScaledBy(l1, scales[..|scales| - 1]), scales[|scales| - 1])
  }

  /** Size, associativity and miss registers times the scale, the latency times ten. */
  ghost predicate Bigger(p: Proto, q: Proto, scale: nat) {
    p.size == q.size * scale && p.assoc == q.assoc * scale && p.mshrs == q.mshrs * scale && p.latency == q.latency * 10
  }

  /** One prototype a level, the one next to memory first; the last is the given one. */
  method CacheProtos(l1: Proto, caches: seq<nat>) returns (protos: seq<Proto>)
    requires |caches| >= 1
    ensures |protos| == |caches|
    ensures protos[|protos| - 1] == l1
    ensures forall k :: 0 <= k < |protos| - 1 ==> Bigger(protos[k], protos[k + 1], caches[|caches| - 2 - k])
    ensures forall k :: 0 <= k < |protos| ==> protos[k] == ScaledBy(l1, caches[..|caches| - 1 - k])
  {
    protos := [l1];
    assert caches[..0] == [];
    for i := 0 to |caches| - 1
      invariant |protos| == i + 1
      invariant forall k :: 0 <= k <= i ==> protos[k] == ScaledBy(l1, caches[..i - k])
    {
      assert caches[..i + 1][..i] == caches[..i];
      protos := [Scaled(protos[0], caches[i])] + protos;
    }
    forall k | 0 <= k < |protos| - 1
      ensures Bigger(protos[k], protos[k + 1], caches[|caches| - 2 - k])
    {
      var scales := caches[..|caches| - 1 - k];
      assert scales[..|scales| - 1] == caches[..|caches| - 2 - k];
    }
  }

  function Product(s: seq<nat>): nat {
    if s == [] then 1 else Product(s[..|s| - 1]) * s[|s| - 1]
  }

  /** Size, associativity and miss registers grow by the product of the scales, the latency by ten a level. */
  lemma {:induction false} ScaledByProduct(l1: Proto, scales: seq<nat>)
    ensures var p := ScaledBy(l1, scales);
            && p.size == l1.size * Product(scales) && p.assoc == l1.assoc * Product(scales)
            && p.mshrs == l1.mshrs * Product(scales) && p.latency == l1.latency * Pow10(|scales|)
  {
    if scales != [] {
      var front, x := scales[..|scales| - 1], scales[|scales| - 1];
      ScaledByProduct(l1, front);
      Associate(l1.size, Product(front), x);
      Associate(l1.assoc, Product(front), x);
      Associate(l1.mshrs, Product(front), x);
      Associate(l1.latency, Pow10(|front|), 10);
    }
  }

  // ----- names -----

  datatype Name = Name(level: nat, index: nat)

  /** `'l%dsubsys%d' % (level, index)`. */
  function NameText(n: Name): string {
    "l" + Decimal(n.level) + "subsys" + Decimal(n.index)
  }

  /** The letter l, the level, "subsys", and the index. */
  ghost predicate Names(text: string, level: nat, index: nat) {
    exists a: string, b: string :: Printed(a, level) && Printed(b, index) && text == "l" + a + "subsys" + b
  }

  lemma NameTextNames(n: Name)
    ensures Names(NameText(n), n.level, n.index)
  {
    DecimalNumeral(n.level);
    DecimalNumeral(n.index);
    assert Printed(Decimal(n.level), n.level) && Printed(Decimal(n.index), n.index);
  }

  lemma {:induction false} DigitPrefix(x: string, y: string, c: char, u: string, v: string)
    requires AllDigits(x) && AllDigits(y) && !IsDigit(c) && x + [c] + u == y + [c] + v
    ensures x == y && u == v
  {
    var s, t := x + [c] + u, y + [c] + v;
    assert s[|x|] == c && t[|y|] == c;
    assert forall k :: 0 <= k < |x| ==> s[k] == x[k];
    assert forall k :: 0 <= k < |y| ==> t[k] == y[k];
    assert |x| == |y|;
    assert x == s[..|x|] && y == t[..|y|] && u == s[|x| + 1..] && v == t[|y| + 1..];
  }

  /** Different subsystems have different attribute names. */
  lemma NameTextInjective(a: Name, b: Name)
    requires NameText(a) == NameText(b)
    ensures a == b
  {
    var x, y := Decimal(a.level), Decimal(b.level);
    var u, v := "ubsys" + Decimal(a.index), "ubsys" + Decimal(b.index);
    assert NameText(a)[1..] == x + ['s'] + u && NameText(b)[1..] == y + ['s'] + v;
    DigitPrefix(x, y, 's', u, v);
    assert u[5..] == Decimal(a.index) && v[5..] == Decimal(b.index);
    DecimalInjective(a.level, b.level);
    DecimalInjective(a.index, b.index);
  }

  // ----- the builder -----

  /** The globals of the script: the specification, the next index of each level, and what was built. */
  class Builder {
    const caches: seq<nat>
    const testers: seq<nat>
    var nextIndex: seq<nat>
    var built: seq<Name>
    var names: seq<string>
    var testerCount: nat

    ghost predicate Valid()
      reads this
    {
      && ValidSpec(caches, testers)
      && |nextIndex| == |caches| + 1
      && Distinct(built) && |names| == |built| && (forall i :: 0 <= i < |names| ==> names[i] == NameText(built[i]))
      && (forall n :: n in built <==> n.level <= |caches| && n.index < nextIndex[n.level])
    }

    constructor (caches: seq<nat>, testers: seq<nat>)
      requires ValidSpec(caches, testers)
      ensures Valid() && this.caches == caches && this.testers == testers
      ensures built == [] && names == [] && testerCount == 0 && nextIndex == seq(|caches| + 1, _ => 0)
    {
      this.caches, this.testers := caches, testers;
      nextIndex := seq(|caches| + 1, _ => 0);
      built, names, testerCount := [], [], 0;
    }

    /** A new subsystem of a level, under the next index of that level. */
    method NewSubsystem(level: nat)
      requires Valid() && level <= |caches|
      modifies this
      ensures Valid() && testerCount == old(testerCount)
      ensures nextIndex == old(nextIndex)[level := old(nextIndex)[level] + 1]
      ensures built == old(built) + [Name(level, old(nextIndex)[level])]
      ensures |names| == |old(names)| + 1 && names[..|old(names)|] == old(names)
      ensures Names(names[|old(names)|], level, old(nextIndex)[level])
    {
      var index := nextIndex[level];
      nextIndex := nextIndex[level := index + 1];
      built := built + [Name(level, index)];
      names := names + [NameText(Name(level, index))];
      NameTextNames(Name(level, index));
    }

    /** The subtree of one subsystem adds its fan-out to every level from its own down to 0, and its testers. */
    ghost predicate Grown(before: seq<nat>, count: nat, level: nat, times: nat)
      reads this
      requires |before| == |nextIndex| == |caches| + 1 == |testers| && level <= |caches|
    {
      && testerCount == count + times * Testers(caches, testers, |caches| - level)
      && (forall l: nat :: l <= level ==> nextIndex[l] == before[l] + times * Width(caches, |caches| - level, |caches| - l))
      && (forall l: nat :: level < l <= |caches| ==> nextIndex[l] == before[l])
    }

    /** `make_cache_level`: fails only at level 0 without a cache to attach to. */
    method MakeCacheLevel(ncaches: seq<nat>, prototypes: seq<Proto>, level: nat, hasNext: bool) returns (ok: bool)
      requires Valid() && level <= |caches| && ncaches == caches[|caches| - level..] && |prototypes| == level
      modifies this
      ensures ok <==> level != 0 || hasNext
      ensures ok ==> Valid() && Grown(old(nextIndex), old(testerCount), level, 1)
      decreases level
    {
      NewSubsystem(level);
      var ntesters := testers[|caches| - level];
      testerCount := testerCount + ntesters;
      if level != 0 {
        var treeCaches := seq(ncaches[0], _ => prototypes[0]);
        ghost var mid, count := nextIndex, testerCount;
        for k := 0 to |treeCaches|
          invariant Valid() && Grown(mid, count, level - 1, k)
        {
          ghost var before, sofar := nextIndex, testerCount;
          var done := MakeCacheLevel(ncaches[1..], prototypes[1..], level - 1, true);
          OneMore(before, sofar, mid, count, level - 1, k);
        }
        GrownBy(mid, count, level, old(nextIndex), old(testerCount));
        return true;
      }
      if !hasNext {
        return false;
      }
      // at the top level at least one tester is attached, directly or through a crossbar
      assert ntesters >= 1;
      return true;
    }

    lemma OneMore(before: seq<nat>, sofar: nat, mid: seq<nat>, count: nat, level: nat, k: nat)
      requires |before| == |mid| == |nextIndex| == |caches| + 1 == |testers| && level <= |caches|
      requires Grown(before, sofar, level, 1)
      requires sofar == count + k * Testers(caches, testers, |caches| - level)
      requires forall l: nat :: l <= level ==> before[l] == mid[l] + k * Width(caches, |caches| - level, |caches| - l)
      requires forall l: nat :: level < l <= |caches| ==> before[l] == mid[l]
      ensures Grown(mid, count, level, k + 1)
    {
      var t := Testers(caches, testers, |caches| - level);
      assert (k + 1) * t == k * t + 1 * t;
      forall l: nat | l <= level
        ensures nextIndex[l] == mid[l] + (k + 1) * Width(caches, |caches| - level, |caches| - l)
      {
        var w := Width(caches, |caches| - level, |caches| - l);
        assert (k + 1) * w == k * w + 1 * w;
      }
    }

    /** The children of a subsystem, and the subsystem itself. */
    lemma GrownBy(mid: seq<nat>, count: nat, level: nat, start: seq<nat>, startCount: nat)
      requires |mid| == |start| == |nextIndex| == |caches| + 1 == |testers| && 0 < level <= |caches|
      requires Grown(mid, count, level - 1, caches[|caches| - level])
      requires mid == start[level := start[level] + 1] && count == startCount + testers[|caches| - level]
      ensures Grown(start, startCount, level, 1)
    {
      var d := |caches| - level;
      forall l: nat | l <= level
        ensures nextIndex[l] == start[l] + 1 * Width(caches, d, |caches| - l)
      {
        if l < level {
          assert Width(caches, d, |caches| - l) == caches[d] * Width(caches, d + 1, |caches| - l);
        }
      }
    }
  }

  /** The attribute names that were set: for each level an index from 0 up to the number of its subsystems. */
  ghost predicate AllNamed(names: seq<string>, built: seq<Name>, counts: seq<nat>) {
    && |names| == |built| && counts != [] && Distinct(names)
    && (forall i :: 0 <= i < |names| ==> Names(names[i], built[i].level, built[i].index))
    && (forall n :: n in built <==> n.level < |counts| && n.index < counts[|counts| - 1 - n.level])
  }

  /** The whole script: a valid specification builds, per level, exactly as many subsystems as the running product says,
      under distinct names with consecutive indices, and exactly the predicted number of testers. */
  method BuildTree(caches: seq<nat>, testers: seq<nat>, l1: Proto) returns (names: seq<string>, built: seq<Name>, made: nat)
    requires ValidSpec(caches, testers)
    ensures exists counts ::
              Fanouts(caches, counts) && AllNamed(names, built, counts) && made == SumOfProducts(testers, counts, |testers|)
    ensures forall n :: n in built <==> n.level <= |caches| && n.index < Width(caches, 0, |caches| - n.level)
    ensures Name(|caches|, 0) in built && made == Spread(caches, testers, 0, 0)
  {
    var b := new Builder(caches, testers);
    var protos := CacheProtos(l1, caches);
    assert caches[0..] == caches;
    var ok := b.MakeCacheLevel(caches, protos, |caches|, false);
    names, built, made := b.names, b.built, b.testerCount;
    TestersSpread(caches, testers, 0);
    var counts, total := NumTesters(caches, testers);
    NamedApart(names, built, counts);
  }

  lemma NamedApart(names: seq<string>, built: seq<Name>, counts: seq<nat>)
    requires |names| == |built| && Distinct(built) && counts != []
    requires forall i :: 0 <= i < |names| ==> names[i] == NameText(built[i])
    requires forall n :: n in built <==> n.level < |counts| && n.index < counts[|counts| - 1 - n.level]
    ensures AllNamed(names, built, counts)
  {
    forall i, j | 0 <= i < j < |names|
      ensures names[i] != names[j]
    {
      if names[i] == names[j] {
        NameTextInjective(built[i], built[j]);
      }
    }
    forall i | 0 <= i < |names|
      ensures Names(names[i], built[i].level, built[i].index)
    {
      NameTextNames(built[i]);
    }
  }
}
