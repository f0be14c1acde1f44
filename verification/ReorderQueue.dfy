/** The print queue of the pipeline viewer: instructions arrive almost in order, wait in a bounded queue, and leave
    sorted by sequence number. */
module ReorderQueue {
  import opened StableSort

  /** An instruction of the trace: sequence number and the ticks of its stages; 0 stands for "not reached". */
  datatype Inst = Inst(
    sn: nat, fetch: nat, decode: nat, rename: nat, dispatch: nat, issue: nat, complete: nat, retire: nat, store: nat)

  /** The bounds given by the user; a bound that is not positive does not bound. */
  datatype Window = Window(snStart: int, snStop: int, tickStart: int, tickStop: int, onlyCommitted: bool)

  predicate Shown(w: Window, x: Inst) {
    && !(w.snStart > 0 && x.sn < w.snStart)
    && !(w.snStop > 0 && x.sn > w.snStop)
    && !(w.tickStart > 0 && x.fetch < w.tickStart)
    && !(w.tickStop > 0 && x.fetch > w.tickStop)
    && !(w.onlyCommitted && x.retire == 0)
  }

  function ShownIn(w: Window): Inst -> bool {
    (x: Inst) => Shown(w, x)
  }

  function Filter(w: Window, s: seq<Inst>): seq<Inst> {
    Select(ShownIn(w), s)
  }

  function BySn(): Inst -> int {
    (x: Inst) => x.sn
  }

  /** The queue, and everything that was taken out of it, in order. */
  datatype Buffer = Buffer(queue: seq<Inst>, popped: seq<Inst>)

  /** `print_insts`: sort, then pop from the front down to the threshold. */
  function Flush(b: Buffer, lower: nat): Buffer {
    var sorted := Sort(BySn(), b.queue);
    var n := if |sorted| > lower then |sorted| - lower else 0;
    Buffer(sorted[n..], b.popped + sorted[..n])
  }

  /** `queue_inst`. */
  function Feed(b: Buffer, x: Inst, min: nat, max: nat): Buffer {
    var c := Buffer(b.queue + [x], b.popped);
    if |c.queue| > max then Flush(c, min) else c
  }

  /** How many items the queue holds without letting any go. */
  function Capacity(min: nat, max: nat): nat {
    if min <= max then max else min
  }

  function FeedAll(stream: seq<Inst>, min: nat, max: nat): Buffer {
    if stream == [] then Buffer([], [])
    else Feed(FeedAll(stream[..|stream| - 1], min, max), stream[|stream| - 1], min, max)
  }

  /** Everything that leaves the queue over a whole trace, before the window is applied. */
  function Popped(stream: seq<Inst>, min: nat, max: nat): seq<Inst> {
    Flush(FeedAll(stream, min, max), 0).popped
  }

  /** A sorted queue after its first `k` items left. */
  function Cut(sorted: seq<Inst>, popped: seq<Inst>, k: nat): Buffer
    requires k <= |sorted|
  {
    Buffer(sorted[k..], popped + sorted[..k])
  }

  lemma CutNext(sorted: seq<Inst>, popped: seq<Inst>, k: nat)
    requires k < |sorted|
    ensures var b := Cut(sorted, popped, k);
            b.queue != [] && Cut(sorted, popped, k + 1) == Buffer(b.queue[1..], b.popped + [b.queue[0]])
  {
    assert sorted[..k + 1] == sorted[..k] + [sorted[k]] && sorted[k..][1..] == sorted[k + 1..];
  }

  // ----- one flush in the source's terms -----

  function WithSn(v: int): Inst -> bool {
    (x: Inst) => x.sn == v
  }

  /** Those of one sequence number are in the same order. */
  ghost predicate SameSnOrder(a: seq<Inst>, b: seq<Inst>) {
    forall v: int :: Select(WithSn(v), a) == Select(WithSn(v), b)
  }

  /** The queue was sorted by sequence number, those of one number in the order they came in; all but `lower` of it left
      from the front. */
  ghost predicate Flushed(queue: seq<Inst>, lower: nat, out: seq<Inst>, left: seq<Inst>) {
    var all := out + left;
    && multiset(all) == multiset(queue) && InOrder(all)
    && SameSnOrder(all, queue)
    && |left| == if lower < |queue| then lower else |queue|
  }

  lemma {:induction false} SelectAlike(p: Inst -> bool, q: Inst -> bool, s: seq<Inst>)
    requires forall x :: p(x) == q(x)
    ensures Select(p, s) == Select(q, s)
  {
    if s != [] {
      SelectAlike(p, q, s[..|s| - 1]);
    }
  }

  lemma SameSn(queue: seq<Inst>, v: int)
    ensures Select(WithSn(v), Sort(BySn(), queue)) == Select(WithSn(v), queue)
  {
    SortStable(BySn(), queue, v);
    SelectAlike(WithSn(v), HasKey(BySn(), v), Sort(BySn(), queue));
    SelectAlike(WithSn(v), HasKey(BySn(), v), queue);
  }

  lemma SortSameSn(queue: seq<Inst>)
    ensures SameSnOrder(Sort(BySn(), queue), queue)
  {
    forall v: int
      ensures Select(WithSn(v), Sort(BySn(), queue)) == Select(WithSn(v), queue)
    {
      SameSn(queue, v);
    }
  }

  lemma CutFlushed(b: Buffer, sorted: seq<Inst>, lower: nat, n: nat, r: Buffer)
    requires multiset(sorted) == multiset(b.queue) && InOrder(sorted) && |sorted| == |b.queue| && SameSnOrder(sorted, b.queue)
    requires n == (if |sorted| > lower then |sorted| - lower else 0) && r == Buffer(sorted[n..], b.popped + sorted[..n])
    ensures b.popped <= r.popped && Flushed(b.queue, lower, r.popped[|b.popped|..], r.queue)
  {
    assert r.popped[|b.popped|..] == sorted[..n];
    assert sorted[..n] + sorted[n..] == sorted;
  }

  lemma FlushExact(b: Buffer, lower: nat)
    ensures b.popped <= Flush(b, lower).popped
    ensures Flushed(b.queue, lower, Flush(b, lower).popped[|b.popped|..], Flush(b, lower).queue)
  {
    var sorted := Sort(BySn(), b.queue);
    SortInOrder(b.queue);
    SortSameSn(b.queue);
    assert |multiset(sorted)| == |sorted| && |multiset(b.queue)| == |b.queue|;
    CutFlushed(b, sorted, lower, if |sorted| > lower then |sorted| - lower else 0, Flush(b, lower));
  }

  /** An arrival joins the queue; only when the queue then holds more than `max`, it is flushed down to `min`. */
  ghost predicate Arrives(b: Buffer, x: Inst, min: nat, max: nat, c: Buffer) {
    if |b.queue| < max then c.queue == b.queue + [x] && c.popped == b.popped
    else b.popped <= c.popped && Flushed(b.queue + [x], min, c.popped[|b.popped|..], c.queue)
  }

  lemma FeedExact(b: Buffer, x: Inst, min: nat, max: nat)
    ensures Arrives(b, x, min, max, Feed(b, x, min, max))
  {
    FlushExact(Buffer(b.queue + [x], b.popped), min);
  }

  // ----- the object -----

  /** The global `insts` with the output it prints to. */
  class PrintQueue {
    var queue: seq<Inst>
    var printed: seq<Inst>
    const min: nat
    const max: nat
    const window: Window
    ghost var popped: seq<Inst>

    ghost predicate Valid()
      reads this
    {
      printed == Filter(window, popped)
    }

    ghost function View(): Buffer
      reads this
    {
      Buffer(queue, popped)
    }

    constructor (min: nat, max: nat, window: Window)
      ensures Valid() && View() == Buffer([], [])
      ensures this.min == min && this.max == max && this.window == window
    {
      queue, printed, popped := [], [], [];
      this.min, this.max, this.window := min, max, window;
    }

    /** One item leaves the queue; it is printed if it passes the window. */
    method PopFront()
      requires Valid() && queue != []
      modifies this
      ensures Valid() && queue == old(queue)[1..] && popped == old(popped) + [old(queue)[0]]
    {
      var item := queue[0];
      queue := queue[1..];
      popped := popped + [item];
      assert popped[..|popped| - 1] == old(popped);
      if Shown(window, item) {
        printed := printed + [item];
      }
    }

    method PrintInsts(lower: nat)
      requires Valid()
      modifies this
      ensures Valid() && View() == Flush(old(View()), lower)
      ensures old(popped) <= popped && Flushed(old(queue), lower, popped[|old(popped)|..], queue)
    {
      FlushExact(View(), lower);
      queue := Sort(BySn(), queue);
      ghost var sorted, was, k: nat := queue, popped, 0;
      assert View() == Cut(sorted, was, 0);
      while |queue| > lower
        invariant Valid() && k <= |sorted| && View() == Cut(sorted, was, k)
        invariant k == 0 || |queue| >= lower
        decreases |queue|
      {
        CutNext(sorted, was, k);
        PopFront();
        k := k + 1;
      }
    }

    method QueueInst(x: Inst)
      requires Valid()
      modifies this
      ensures Valid() && View() == Feed(old(View()), x, min, max)
      ensures Arrives(old(View()), x, min, max, View())
    {
      FeedExact(View(), x, min, max);
      queue := queue + [x];
      if |queue| > max {
        PrintInsts(min);
      }
    }
  }

  /** A fetch this far behind the window ends the trace. */
  predicate Stops(w: Window, drift: nat, max: nat, x: Inst) {
    (w.tickStop > 0 && x.fetch > w.tickStop + drift) || (w.snStop > 0 && x.sn > w.snStop + max)
  }

  /** The instructions before the first one that ends the trace. */
  function Read(w: Window, drift: nat, max: nat, stream: seq<Inst>): seq<Inst> {
    if stream == [] || Stops(w, drift, max, stream[0]) then []
    else [stream[0]] + Read(w, drift, max, stream[1..])
  }

  lemma ReadNext(w: Window, drift: nat, max: nat, stream: seq<Inst>, i: nat, read: seq<Inst>)
    requires i <= |stream| && Read(w, drift, max, stream) == read + Read(w, drift, max, stream[i..])
    ensures i == |stream| || Stops(w, drift, max, stream[i]) ==> Read(w, drift, max, stream) == read
    ensures i < |stream| && !Stops(w, drift, max, stream[i]) ==>
              Read(w, drift, max, stream) == (read + [stream[i]]) + Read(w, drift, max, stream[i + 1..])
  {
    assert read + [] == read;
    if i < |stream| {
      assert stream[i..][0] == stream[i] && stream[i..][1..] == stream[i + 1..];
    }
  }

  // ----- conservation -----

  lemma FlushConserves(b: Buffer, lower: nat)
    ensures var r := Flush(b, lower); multiset(r.popped) + multiset(r.queue) == multiset(b.popped) + multiset(b.queue)
    ensures var r := Flush(b, lower); |r.queue| == if |b.queue| > lower then lower else |b.queue|
  {
    SortSorted(BySn(), b.queue);
    var sorted := Sort(BySn(), b.queue);
    var n := if |sorted| > lower then |sorted| - lower else 0;
    assert sorted == sorted[..n] + sorted[n..];
  }

  /** Nothing is lost or doubled, and the queue is bounded, at every point of the trace. */
  lemma {:induction false} FeedConserves(stream: seq<Inst>, min: nat, max: nat)
    ensures var b := FeedAll(stream, min, max); multiset(b.popped) + multiset(b.queue) == multiset(stream)
    ensures |FeedAll(stream, min, max).queue| <= Capacity(min, max)
  {
    if stream != [] {
      var front, x := stream[..|stream| - 1], stream[|stream| - 1];
      FeedConserves(front, min, max);
      assert stream == front + [x];
      var b := FeedAll(front, min, max);
      var c := Buffer(b.queue + [x], b.popped);
      FlushConserves(c, min);
    }
  }

  lemma {:induction false} FilterCount(w: Window, s: seq<Inst>, x: Inst)
    ensures multiset(Filter(w, s))[x] == if Shown(w, x) then multiset(s)[x] else 0
  {
    if s != [] {
      FilterCount(w, s[..|s| - 1], x);
      assert s == s[..|s| - 1] + [s[|s| - 1]];
    }
  }

  /** Each instruction of the trace is printed exactly as often as it occurs if it passes the window, else never. */
  lemma PrintedExactlyOnce(w: Window, stream: seq<Inst>, min: nat, max: nat, x: Inst)
    ensures multiset(Filter(w, Popped(stream, min, max)))[x] == if Shown(w, x) then multiset(stream)[x] else 0
  {
    EverythingPopped(stream, min, max);
    FilterCount(w, Popped(stream, min, max), x);
  }

  // ----- order -----

  /** How many instructions of a list have a larger sequence number. */
  function Larger(s: seq<Inst>, v: nat): nat {
    if s == [] then 0 else Larger(s[..|s| - 1], v) + if s[|s| - 1].sn > v then 1 else 0
  }

  /** Every instruction is preceded on arrival by at most `bound` with larger numbers. */
  ghost predicate Displaced(stream: seq<Inst>, bound: nat) {
    forall k :: 0 <= k < |stream| ==> Larger(stream[..k], stream[k].sn) <= bound
  }

  lemma {:induction false} LargerAppend(a: seq<Inst>, b: seq<Inst>, v: nat)
    ensures Larger(a + b, v) == Larger(a, v) + Larger(b, v)
  {
    if b == [] {
      assert a + b == a;
    } else {
      assert (a + b)[..|a + b| - 1] == a + b[..|b| - 1];
      LargerAppend(a, b[..|b| - 1], v);
    }
  }

  lemma LargerWithout(s: seq<Inst>, i: nat, v: nat)
    requires i < |s|
    ensures Larger(s, v) == Larger(s[..i] + s[i + 1..], v) + if s[i].sn > v then 1 else 0
  {
    assert s == (s[..i] + [s[i]]) + s[i + 1..];
    LargerAppend(s[..i] + [s[i]], s[i + 1..], v);
    LargerAppend(s[..i], s[i + 1..], v);
    assert (s[..i] + [s[i]])[..i] == s[..i];
  }

  lemma MultisetWithout(s: seq<Inst>, i: nat)
    requires i < |s|
    ensures multiset(s[..i] + s[i + 1..]) == multiset(s) - multiset{s[i]}
  {
    assert s == s[..i] + [s[i]] + s[i + 1..];
  }

  lemma {:induction false} LargerPermuted(a: seq<Inst>, b: seq<Inst>, v: nat)
    requires multiset(a) == multiset(b)
    ensures Larger(a, v) == Larger(b, v)
  {
    if a == [] {
      assert |multiset(b)| == 0;
    } else {
      var n := |a| - 1;
      SameElements(a, b);
      assert a[n] in a;
      var i :| 0 <= i < |b| && b[i] == a[n];
      MultisetWithout(a, n);
      MultisetWithout(b, i);
      LargerWithout(a, n, v);
      LargerWithout(b, i, v);
      LargerPermuted(a[..n] + a[n + 1..], b[..i] + b[i + 1..], v);
    }
  }

  lemma {:induction false} LargerAll(s: seq<Inst>, v: nat)
    requires forall x :: x in s ==> x.sn > v
    ensures Larger(s, v) == |s|
  {
    if s != [] {
      LargerAll(s[..|s| - 1], v);
    }
  }

  lemma {:induction false} LargerSome(s: seq<Inst>, v: nat, x: Inst)
    requires x in s && x.sn > v
    ensures Larger(s, v) >= 1
  {
    if x != s[|s| - 1] {
      LargerSome(s[..|s| - 1], v, x);
    }
  }

  ghost predicate InOrder(s: seq<Inst>) {
    forall i, j :: 0 <= i < j < |s| ==> s[i].sn <= s[j].sn
  }

  lemma SortInOrder(s: seq<Inst>)
    ensures InOrder(Sort(BySn(), s)) && multiset(Sort(BySn(), s)) == multiset(s)
  {
    SortSorted(BySn(), s);
    var r := Sort(BySn(), s);
    assert forall i, j :: 0 <= i < j < |r| ==> BySn()(r[i]) <= BySn()(r[j]);
  }

  /** What left is sorted and not larger than what stays. */
  ghost predicate Ordered(b: Buffer) {
    InOrder(b.popped) && forall p, q :: p in b.popped && q in b.queue ==> p.sn <= q.sn
  }

  lemma MoveOrdered(popped: seq<Inst>, sorted: seq<Inst>, n: nat)
    requires n <= |sorted| && InOrder(sorted) && Ordered(Buffer(sorted, popped))
    ensures Ordered(Buffer(sorted[n..], popped + sorted[..n]))
  {
    var low, high := sorted[..n], sorted[n..];
    forall p, q | p in popped + low && q in high
      ensures p.sn <= q.sn
    {
      assert q in sorted;
      if p !in popped {
        var i :| 0 <= i < n && low[i] == p;
        var j :| 0 <= j < |high| && high[j] == q;
        assert sorted[i].sn <= sorted[n + j].sn;
      }
    }
    forall i, j | 0 <= i < j < |popped + low|
      ensures (popped + low)[i].sn <= (popped + low)[j].sn
    {
      if i < |popped| <= j {
        assert popped[i] in popped && sorted[j - |popped|] in sorted;
      }
    }
  }

  lemma FlushOrdered(b: Buffer, lower: nat)
    requires Ordered(b)
    ensures Ordered(Flush(b, lower))
  {
    SortInOrder(b.queue);
    var sorted := Sort(BySn(), b.queue);
    SameElements(sorted, b.queue);
    MoveOrdered(b.popped, sorted, if |sorted| > lower then |sorted| - lower else 0);
  }

  /** An arrival cannot belong before something that already left: that and all of the queue would be larger. */
  lemma ArrivalInOrder(front: seq<Inst>, x: Inst, min: nat, max: nat)
    requires Larger(front, x.sn) <= min
    requires Steady(FeedAll(front, min, max), min)
    ensures forall p :: p in FeedAll(front, min, max).popped ==> p.sn <= x.sn
  {
    var b := FeedAll(front, min, max);
    forall p | p in b.popped
      ensures p.sn <= x.sn
    {
      if p.sn > x.sn {
        FeedConserves(front, min, max);
        LargerPermuted(b.popped + b.queue, front, x.sn);
        LargerAppend(b.popped, b.queue, x.sn);
        LargerAll(b.queue, x.sn);
        LargerSome(b.popped, x.sn, p);
      }
    }
  }

  /** What left is in order, and once something left at least `min` stay. */
  ghost predicate Steady(b: Buffer, min: nat) {
    Ordered(b) && (b.popped != [] ==> |b.queue| >= min)
  }

  lemma FeedSteady(b: Buffer, x: Inst, min: nat, max: nat)
    requires Steady(b, min) && forall p :: p in b.popped ==> p.sn <= x.sn
    ensures Steady(Feed(b, x, min, max), min)
  {
    var c := Buffer(b.queue + [x], b.popped);
    assert Ordered(c);
    FlushOrdered(c, min);
    FlushConserves(c, min);
  }

  lemma DisplacedFront(front: seq<Inst>, x: Inst, bound: nat)
    requires Displaced(front + [x], bound)
    ensures Displaced(front, bound) && Larger(front, x.sn) <= bound
  {
    var stream := front + [x];
    assert stream[..|front|] == front && stream[|front|] == x;
    forall k | 0 <= k < |front|
      ensures Larger(front[..k], front[k].sn) <= bound
    {
      assert front[..k] == stream[..k] && front[k] == stream[k];
    }
  }

  lemma {:induction false} FeedOrdered(stream: seq<Inst>, min: nat, max: nat)
    requires Displaced(stream, min)
    ensures Steady(FeedAll(stream, min, max), min)
  {
    if stream != [] {
      var front, x := stream[..|stream| - 1], stream[|stream| - 1];
      assert stream == front + [x];
      DisplacedFront(front, x, min);
      FeedOrdered(front, min, max);
      ArrivalInOrder(front, x, min, max);
      FeedSteady(FeedAll(front, min, max), x, min, max);
    }
  }

  /** Sorting what is left behind what already left: an arrival that belongs behind that finds its place in the rest. */
  lemma FeedAgrees(b: Buffer, x: Inst, min: nat, max: nat, front: seq<Inst>)
    requires b.popped + Sort(BySn(), b.queue) == Sort(BySn(), front)
    requires forall p :: p in b.popped ==> p.sn <= x.sn
    ensures var c := Feed(b, x, min, max); c.popped + Sort(BySn(), c.queue) == Sort(BySn(), front + [x])
  {
    var queue := b.queue + [x];
    var sorted := Sort(BySn(), queue);
    assert queue[..|b.queue|] == b.queue && (front + [x])[..|front|] == front;
    InsertBehind(BySn(), b.popped, Sort(BySn(), b.queue), x);
    assert b.popped + sorted == Sort(BySn(), front + [x]);
    if |queue| > max {
      FlushAgrees(Buffer(queue, b.popped), min);
    }
  }

  lemma Rejoin(popped: seq<Inst>, sorted: seq<Inst>, n: nat)
    requires n <= |sorted|
    ensures (popped + sorted[..n]) + sorted[n..] == popped + sorted
  {
  }

  lemma FlushAgrees(b: Buffer, lower: nat)
    ensures var c := Flush(b, lower); c.popped + Sort(BySn(), c.queue) == b.popped + Sort(BySn(), b.queue)
  {
    var sorted := Sort(BySn(), b.queue);
    var n := if |sorted| > lower then |sorted| - lower else 0;
    SortSorted(BySn(), b.queue);
    SortIdleBehind(BySn(), sorted, n);
    Rejoin(b.popped, sorted, n);
  }

  lemma {:induction false} FeedSorts(stream: seq<Inst>, min: nat, max: nat)
    requires Displaced(stream, min)
    ensures var b := FeedAll(stream, min, max); b.popped + Sort(BySn(), b.queue) == Sort(BySn(), stream)
  {
    if stream != [] {
      var front, x := stream[..|stream| - 1], stream[|stream| - 1];
      assert stream == front + [x];
      DisplacedFront(front, x, min);
      FeedSorts(front, min, max);
      FeedOrdered(front, min, max);
      ArrivalInOrder(front, x, min, max);
      FeedAgrees(FeedAll(front, min, max), x, min, max, front);
    }
  }

  /** Bounded reordering is correct: when no instruction is overtaken by more than `min` others, the flushes together
      give what one stable sort of the whole trace gives, whatever the upper threshold. */
  lemma PoppedInOrder(stream: seq<Inst>, min: nat, max: nat)
    requires Displaced(stream, min)
    ensures Popped(stream, min, max) == Sort(BySn(), stream) && InOrder(Popped(stream, min, max))
  {
    FeedSorts(stream, min, max);
    FlushAgrees(FeedAll(stream, min, max), 0);
    assert Flush(FeedAll(stream, min, max), 0).queue == [];
    SortInOrder(stream);
  }

  /** So the printed trace is the instructions the window shows, stably sorted by sequence number. */
  lemma PrintedInOrder(w: Window, stream: seq<Inst>, min: nat, max: nat)
    requires Displaced(stream, min)
    ensures Filter(w, Popped(stream, min, max)) == Sort(BySn(), Filter(w, stream))
    ensures InOrder(Filter(w, Popped(stream, min, max)))
  {
    PoppedInOrder(stream, min, max);
    SelectSort(BySn(), ShownIn(w), stream);
    SortInOrder(Filter(w, stream));
  }

  // ----- the early stop loses nothing -----

  /** What the viewer assumes of a trace: nothing is more than `drift` ticks or `max` sequence numbers late. */
  ghost predicate Drifts(stream: seq<Inst>, drift: nat, max: nat) {
    forall i, j :: 0 <= i < j < |stream| ==>
                     stream[i].fetch <= stream[j].fetch + drift && stream[i].sn <= stream[j].sn + max
  }

  /** What is read is a prefix, and it ends at the end or at an instruction that stops the trace. */
  lemma {:induction false} ReadPrefix(w: Window, drift: nat, max: nat, stream: seq<Inst>)
    ensures var n := |Read(w, drift, max, stream)|;
            && n <= |stream| && Read(w, drift, max, stream) == stream[..n]
            && (n < |stream| ==> Stops(w, drift, max, stream[n]))
  {
    if stream != [] && !Stops(w, drift, max, stream[0]) {
      ReadPrefix(w, drift, max, stream[1..]);
    }
  }

  /** Under the drift assumption the window shows nothing of what is not read. */
  lemma UnreadNotShown(w: Window, drift: nat, max: nat, stream: seq<Inst>, j: nat)
    requires Drifts(stream, drift, max) && |Read(w, drift, max, stream)| <= j < |stream|
    ensures !Shown(w, stream[j])
  {
    ReadPrefix(w, drift, max, stream);
    var n := |Read(w, drift, max, stream)|;
    assert Stops(w, drift, max, stream[n]);
  }

  lemma ReadFiltered(w: Window, drift: nat, max: nat, stream: seq<Inst>)
    requires Drifts(stream, drift, max)
    ensures Filter(w, Read(w, drift, max, stream)) == Filter(w, stream)
  {
    var n := |Read(w, drift, max, stream)|;
    ReadPrefix(w, drift, max, stream);
    forall j | n <= j < |stream|
      ensures !Shown(w, stream[j])
    {
      UnreadNotShown(w, drift, max, stream, j);
    }
    SelectFront(ShownIn(w), stream, n);
  }

  lemma DisplacedPrefix(stream: seq<Inst>, n: nat, bound: nat)
    requires n <= |stream| && Displaced(stream, bound)
    ensures Displaced(stream[..n], bound)
  {
    forall k | 0 <= k < n
      ensures Larger(stream[..n][..k], stream[..n][k].sn) <= bound
    {
      assert stream[..n][..k] == stream[..k];
    }
  }

  /** Under the drift assumption stopping early prints each instruction as often as reading on to the end would. */
  lemma EarlyStopLosesNothing(w: Window, drift: nat, min: nat, max: nat, stream: seq<Inst>)
    requires Drifts(stream, drift, max)
    ensures multiset(Filter(w, Popped(Read(w, drift, max, stream), min, max)))
         == multiset(Filter(w, Popped(stream, min, max)))
  {
    var read := Read(w, drift, max, stream);
    ReadFiltered(w, drift, max, stream);
    forall x
      ensures multiset(Filter(w, Popped(read, min, max)))[x] == multiset(Filter(w, Popped(stream, min, max)))[x]
    {
      PrintedExactlyOnce(w, read, min, max, x);
      PrintedExactlyOnce(w, stream, min, max, x);
      FilterCount(w, read, x);
      FilterCount(w, stream, x);
    }
  }

  /** When the trace is also within the reordering bound, the output is the very same. */
  lemma EarlyStopSameOutput(w: Window, drift: nat, min: nat, max: nat, stream: seq<Inst>)
    requires Drifts(stream, drift, max) && Displaced(stream, min)
    ensures Filter(w, Popped(Read(w, drift, max, stream), min, max)) == Filter(w, Popped(stream, min, max))
  {
    var read := Read(w, drift, max, stream);
    ReadPrefix(w, drift, max, stream);
    DisplacedPrefix(stream, |read|, min);
    ReadFiltered(w, drift, max, stream);
    PrintedInOrder(w, read, min, max);
    PrintedInOrder(w, stream, min, max);
  }

  // ----- the printed trace, in the source's terms -----

  /** The window, field by field: a bound that is positive bounds, and without abandoned instructions retirement counts. */
  ghost predicate Passes(w: Window, x: Inst) {
    && (w.snStart > 0 ==> x.sn >= w.snStart)
    && (w.snStop > 0 ==> x.sn <= w.snStop)
    && (w.tickStart > 0 ==> x.fetch >= w.tickStart)
    && (w.tickStop > 0 ==> x.fetch <= w.tickStop)
    && (w.onlyCommitted ==> x.retire != 0)
  }

  /** Reading goes on up to instruction `n`: the first whose fetch is more than `drift` ticks past the last tick, or whose
      number is more than `max` past the last number, or the end. */
  ghost predicate EndsAt(w: Window, drift: nat, max: nat, stream: seq<Inst>, n: nat) {
    && n <= |stream|
    && (forall i :: 0 <= i < n ==>
          && (w.tickStop > 0 ==> stream[i].fetch <= w.tickStop + drift)
          && (w.snStop > 0 ==> stream[i].sn <= w.snStop + max))
    && (n < |stream| ==>
          || (w.tickStop > 0 && stream[n].fetch > w.tickStop + drift)
          || (w.snStop > 0 && stream[n].sn > w.snStop + max))
  }

  /** What is printed of what is read: each instruction that passes as often as it occurs, and no other. */
  ghost predicate PrintsWindow(w: Window, read: seq<Inst>, printed: seq<Inst>) {
    forall x :: multiset(printed)[x] == if Passes(w, x) then multiset(read)[x] else 0
  }

  lemma {:induction false} ReadEnds(w: Window, drift: nat, max: nat, stream: seq<Inst>)
    ensures EndsAt(w, drift, max, stream, |Read(w, drift, max, stream)|)
    ensures Read(w, drift, max, stream) == stream[..|Read(w, drift, max, stream)|]
  {
    ReadPrefix(w, drift, max, stream);
    if stream != [] && !Stops(w, drift, max, stream[0]) {
      ReadEnds(w, drift, max, stream[1..]);
      var n := |Read(w, drift, max, stream)|;
      assert forall i :: 0 < i < n ==> stream[i] == stream[1..][i - 1];
    }
  }

  lemma EndsOnce(w: Window, drift: nat, max: nat, stream: seq<Inst>, m: nat, n: nat)
    requires EndsAt(w, drift, max, stream, m) && EndsAt(w, drift, max, stream, n)
    ensures m == n
  {
  }

  lemma WindowPrinted(w: Window, read: seq<Inst>, min: nat, max: nat)
    ensures PrintsWindow(w, read, Filter(w, Popped(read, min, max)))
  {
    forall x
      ensures multiset(Filter(w, Popped(read, min, max)))[x] == if Passes(w, x) then multiset(read)[x] else 0
    {
      PrintedExactlyOnce(w, read, min, max, x);
      assert Shown(w, x) <==> Passes(w, x);
    }
  }

  /** The main loop of `process_trace`, instruction by instruction. */
  method ProcessTrace(w: Window, drift: nat, min: nat, max: nat, stream: seq<Inst>) returns (printed: seq<Inst>)
    ensures printed == Filter(w, Popped(Read(w, drift, max, stream), min, max))
    ensures exists n: nat :: EndsAt(w, drift, max, stream, n)
    ensures forall n: nat :: EndsAt(w, drift, max, stream, n) ==>
                               PrintsWindow(w, stream[..n], printed) && (Displaced(stream[..n], min) ==> InOrder(printed))
  {
    var q := new PrintQueue(min, max, w);
    var i := 0;
    ghost var read: seq<Inst> := [];
    assert stream[0..] == stream;
    while i < |stream| && !Stops(w, drift, max, stream[i])
      invariant 0 <= i <= |stream| && q.Valid() && q.View() == FeedAll(read, min, max)
      invariant Read(w, drift, max, stream) == read + Read(w, drift, max, stream[i..])
    {
      ReadNext(w, drift, max, stream, i, read);
      FeedLast(read, stream[i], min, max);
      q.QueueInst(stream[i]);
      read := read + [stream[i]];
      i := i + 1;
    }
    ReadNext(w, drift, max, stream, i, read);
    q.PrintInsts(0);
    printed := q.printed;
    TraceContract(w, drift, min, max, stream);
  }

  lemma TraceContract(w: Window, drift: nat, min: nat, max: nat, stream: seq<Inst>)
    ensures var printed := Filter(w, Popped(Read(w, drift, max, stream), min, max));
            && EndsAt(w, drift, max, stream, |Read(w, drift, max, stream)|)
            && forall n: nat :: EndsAt(w, drift, max, stream, n) ==>
                                  PrintsWindow(w, stream[..n], printed) && (Displaced(stream[..n], min) ==> InOrder(printed))
  {
    var read := Read(w, drift, max, stream);
    ReadEnds(w, drift, max, stream);
    WindowPrinted(w, read, min, max);
    if Displaced(read, min) {
      PrintedInOrder(w, read, min, max);
    }
    forall n: nat | EndsAt(w, drift, max, stream, n)
      ensures n == |read|
    {
      EndsOnce(w, drift, max, stream, n, |read|);
    }
  }

  // ----- the bound is sharp -----

  function Numbered(sn: nat): Inst {
    Inst(sn, 0, 0, 0, 0, 0, 0, 0, 0)
  }

  /** `n` instructions in order, with the odd numbers. */
  function Odd(n: nat): seq<Inst> {
    seq(n, i requires 0 <= i < n => Numbered(2 * i + 1))
  }

  lemma {:induction false} OddLarger(n: nat, h: nat)
    ensures Larger(Odd(n), 2 * h) == if h <= n then n - h else 0
  {
    if n > 0 {
      assert Odd(n)[..n - 1] == Odd(n - 1);
      OddLarger(n - 1, h);
    }
  }

  lemma OddPrefix(n: nat, k: nat)
    requires k <= n
    ensures Odd(n)[..k] == Odd(k) && InOrder(Odd(n))
    ensures k + 1 == n ==> Odd(n) == Odd(k) + [Numbered(2 * k + 1)]
  {
  }

  /** A flush of a sorted queue that is not above the threshold does nothing. */
  lemma FlushIdle(q: seq<Inst>, lower: nat)
    requires InOrder(q) && |q| <= lower
    ensures Flush(Buffer(q, []), lower) == Buffer(q, [])
  {
    assert Sorted(BySn(), q);
    SortIdle(BySn(), q);
  }

  lemma {:induction false} OddFeed(n: nat, min: nat, max: nat)
    requires n <= Capacity(min, max)
    ensures FeedAll(Odd(n), min, max) == Buffer(Odd(n), [])
  {
    if n > 0 {
      OddPrefix(n, n - 1);
      OddFeed(n - 1, min, max);
      FeedLast(Odd(n - 1), Numbered(2 * n - 1), min, max);
      if n > max {
        FlushIdle(Odd(n), min);
      }
    }
  }

  lemma FeedLast(s: seq<Inst>, x: Inst, min: nat, max: nat)
    ensures FeedAll(s + [x], min, max) == Feed(FeedAll(s, min, max), x, min, max)
  {
    assert (s + [x])[..|s|] == s;
  }

  lemma FlushInOrder(q: seq<Inst>, lower: nat)
    requires InOrder(q) && lower <= |q|
    ensures Flush(Buffer(q, []), lower).popped == q[..|q| - lower]
  {
    assert Sorted(BySn(), q);
    SortIdle(BySn(), q);
  }

  lemma FeedOverflow(q: seq<Inst>, x: Inst, min: nat, max: nat)
    requires |q| == Capacity(min, max) && InOrder(q + [x])
    ensures Feed(Buffer(q, []), x, min, max).popped == (q + [x])[..|q| + 1 - min]
  {
    FlushInOrder(q + [x], min);
  }

  lemma FeedFull(s: seq<Inst>, q: seq<Inst>, x: Inst, min: nat, max: nat)
    requires FeedAll(s, min, max) == Buffer(q, []) && |q| == Capacity(min, max) && InOrder(q + [x])
    ensures FeedAll(s + [x], min, max).popped == (q + [x])[..|q| + 1 - min]
  {
    FeedLast(s, x, min, max);
    FeedOverflow(q, x, min, max);
  }

  /** The first flush of that stream that prints goes down to the lower threshold. */
  lemma OddFlush(min: nat, max: nat)
    ensures FeedAll(Odd(Capacity(min, max) + 1), min, max).popped == Odd(Capacity(min, max) + 1 - min)
  {
    var m := Capacity(min, max);
    OddFeed(m, min, max);
    OddPrefix(m + 1, m);
    OddPrefix(m + 1, m + 1 - min);
    FeedFull(Odd(m), Odd(m), Numbered(2 * m + 1), min, max);
  }

  lemma {:induction false} PoppedGrows(a: seq<Inst>, b: seq<Inst>, min: nat, max: nat)
    ensures FeedAll(a, min, max).popped <= FeedAll(a + b, min, max).popped
  {
    if b == [] {
      assert a + b == a;
    } else {
      assert (a + b)[..|a + b| - 1] == a + b[..|b| - 1];
      PoppedGrows(a, b[..|b| - 1], min, max);
    }
  }

  lemma LateDisplaced(m: nat, min: nat)
    requires min <= m
    ensures Displaced(Odd(m + 1) + [Numbered(2 * (m - min))], min + 1)
  {
    var stream := Odd(m + 1) + [Numbered(2 * (m - min))];
    forall k | 0 <= k < |stream|
      ensures Larger(stream[..k], stream[k].sn) <= min + 1
    {
      if k <= m {
        assert stream[..k] == Odd(k) && stream[k].sn == 2 * k + 1;
        OddBelow(k, 2 * k + 1);
      } else {
        assert stream[..k] == Odd(m + 1);
        OddLarger(m + 1, m - min);
      }
    }
  }

  lemma EverythingPopped(stream: seq<Inst>, min: nat, max: nat)
    ensures multiset(Popped(stream, min, max)) == multiset(stream)
    ensures FeedAll(stream, min, max).popped <= Popped(stream, min, max)
  {
    FeedConserves(stream, min, max);
    FlushConserves(FeedAll(stream, min, max), 0);
    assert Flush(FeedAll(stream, min, max), 0).queue == [];
  }

  /** What leaves before the end leaves first. */
  lemma PoppedFirst(a: seq<Inst>, b: seq<Inst>, min: nat, max: nat)
    ensures FeedAll(a, min, max).popped <= Popped(a + b, min, max)
  {
    PoppedGrows(a, b, min, max);
    EverythingPopped(a + b, min, max);
    PrefixChain(FeedAll(a, min, max).popped, FeedAll(a + b, min, max).popped, Popped(a + b, min, max));
  }

  lemma PrefixChain(a: seq<Inst>, b: seq<Inst>, c: seq<Inst>)
    requires a <= b && b <= c
    ensures a <= c
  {
  }

  lemma AllPopped(stream: seq<Inst>, min: nat, max: nat, x: Inst)
    requires x in stream
    ensures x in Popped(stream, min, max)
  {
    EverythingPopped(stream, min, max);
    SameElements(Popped(stream, min, max), stream);
  }

  lemma NotInOrder(early: seq<Inst>, popped: seq<Inst>, k: nat, y: Inst)
    requires early <= popped && k < |early| && y !in early && y in popped && y.sn < early[k].sn
    ensures !InOrder(popped)
  {
    assert forall i :: 0 <= i < |early| ==> popped[i] == early[i];
    var j :| 0 <= j < |popped| && popped[j] == y;
    assert popped[k] == early[k];
  }

  /** An arrival that belongs before something that already left comes out behind it. */
  lemma TooLate(front: seq<Inst>, early: seq<Inst>, y: Inst, min: nat, max: nat, k: nat)
    requires FeedAll(front, min, max).popped == early && k < |early| && y !in early && y.sn < early[k].sn
    ensures !InOrder(Popped(front + [y], min, max))
  {
    PoppedFirst(front, [y], min, max);
    assert y in front + [y];
    AllPopped(front + [y], min, max, y);
    NotInOrder(early, Popped(front + [y], min, max), k, y);
  }

  /** A full queue was just flushed, and what comes next is overtaken by one more than the bound. */
  lemma FlushedTooEarly(min: nat, max: nat) returns (front: seq<Inst>, early: seq<Inst>, y: Inst, k: nat)
    ensures FeedAll(front, min, max).popped == early && k < |early| && y !in early && y.sn < early[k].sn
    ensures InOrder(front) && Displaced(front + [y], min + 1)
  {
    var m := Capacity(min, max);
    front, early, y, k := Odd(m + 1), Odd(m + 1 - min), Numbered(2 * (m - min)), m - min;
    OddFlush(min, max);
    OddPrefix(m + 1, 0);
    OddAt(m + 1 - min, k);
    LateDisplaced(m, min);
  }

  lemma OddAt(n: nat, k: nat)
    requires k < n
    ensures Odd(n)[k].sn == 2 * k + 1 && Numbered(2 * k) !in Odd(n)
  {
    assert forall i :: 0 <= i < n ==> Odd(n)[i].sn == 2 * i + 1;
  }

  /** One more place is too many: a stream in which one instruction is overtaken by `min + 1` others, and no other is
      overtaken at all, leaves the queue out of order. */
  lemma BoundIsSharp(min: nat, max: nat) returns (front: seq<Inst>, y: Inst)
    ensures InOrder(front) && Displaced(front + [y], min + 1) && !InOrder(Popped(front + [y], min, max))
  {
    var early, k;
    front, early, y, k := FlushedTooEarly(min, max);
    TooLate(front, early, y, min, max, k);
  }

  lemma {:induction false} OddBelow(k: nat, v: nat)
    requires 2 * k <= v + 1
    ensures Larger(Odd(k), v) == 0
  {
    if k > 0 {
      assert Odd(k)[..k - 1] == Odd(k - 1);
      OddBelow(k - 1, v);
    }
  }
}
