/** Aggregation of several checkpoints into one: memories are concatenated, page addresses relocated, and sections
    renamed so that they cannot collide. */
module CheckpointAggregator {
  import opened Basics
  import opened Text

  const PAGE: nat := 4096

  // ----- section names -----

  const CPU: string := "cpu"

  predicate StartsCpu(s: string) {
    |s| >= 3 && s[0] == 'c' && s[1] == 'p' && s[2] == 'u'
  }

  /** `re.compile("cpu").search(s)` finds something. */
  predicate HasCpu(s: string) {
    s != [] && (StartsCpu(s) || HasCpu(s[1..]))
  }

  /** `re.sub("cpu", "cpu" + tag, s)`: every occurrence, from the left. */
  function Rename(s: string, tag: string): string {
    if s == [] then []
    else if StartsCpu(s) then CPU + tag + Rename(s[3..], tag)
    else [s[0]] + Rename(s[1..], tag)
  }

  lemma {:induction false} RenameKeepsCpu(s: string, tag: string)
    ensures HasCpu(s) ==> HasCpu(Rename(s, tag))
    ensures !HasCpu(s) ==> Rename(s, tag) == s
  {
    if s != [] && !StartsCpu(s) {
      RenameKeepsCpu(s[1..], tag);
      assert Rename(s, tag)[1..] == Rename(s[1..], tag);
    }
  }

  /** A renamed text starts like the text, up to the first occurrence. */
  lemma RenameFirst(s: string, tag: string)
    requires s != []
    ensures Rename(s, tag) != [] && Rename(s, tag)[0] == s[0]
  {
  }

  /** No occurrence appears in front of the first one. */
  lemma RenameStarts(s: string, tag: string)
    requires StartsCpu(Rename(s, tag))
    ensures StartsCpu(s)
  {
    if s != [] && !StartsCpu(s) {
      var r := Rename(s, tag);
      assert r[1..] == Rename(s[1..], tag);
      RenameFirst(s[1..], tag);
    }
  }

  lemma {:induction false} RenameSameTag(a: string, b: string, tag: string)
    requires Rename(a, tag) == Rename(b, tag)
    ensures a == b
  {
    if a == [] || b == [] {
      if a != [] {
        RenameFirst(a, tag);
      }
      if b != [] {
        RenameFirst(b, tag);
      }
    } else {
      RenameFirst(a, tag);
      RenameFirst(b, tag);
      if StartsCpu(a) || StartsCpu(b) {
        RenameStarts(a, tag);
        RenameStarts(b, tag);
        var n := 3 + |tag|;
        assert Rename(a, tag)[n..] == Rename(a[3..], tag) && Rename(b, tag)[n..] == Rename(b[3..], tag);
        RenameSameTag(a[3..], b[3..], tag);
        assert a == CPU + a[3..] && b == CPU + b[3..];
      } else {
        assert Rename(a, tag)[1..] == Rename(a[1..], tag) && Rename(b, tag)[1..] == Rename(b[1..], tag);
        RenameSameTag(a[1..], b[1..], tag);
        assert a == [a[0]] + a[1..] && b == [b[0]] + b[1..];
      }
    }
  }

  /** With tags of one width, a renamed name determines both the name and the tag. */
  lemma {:induction false} RenameInjective(a: string, s: string, b: string, t: string)
    requires HasCpu(a) && HasCpu(b) && |s| == |t| && Rename(a, s) == Rename(b, t)
    ensures a == b && s == t
  {
    RenameFirst(a, s);
    RenameFirst(b, t);
    if StartsCpu(a) || StartsCpu(b) {
      RenameStarts(a, s);
      RenameStarts(b, t);
      assert Rename(a, s)[3..3 + |s|] == s && Rename(b, t)[3..3 + |t|] == t;
      RenameSameTag(a, b, s);
    } else {
      assert Rename(a, s)[1..] == Rename(a[1..], s) && Rename(b, t)[1..] == Rename(b[1..], t);
      RenameInjective(a[1..], s, b[1..], t);
      assert a == [a[0]] + a[1..] && b == [b[0]] + b[1..];
    }
  }

  /** The tag of checkpoint `i` out of `n`: its index, padded to the width of the largest. */
  function IndexTag(i: nat, n: nat): string
    requires i < n
  {
    ZFill(Decimal(i), |Decimal(n - 1)|)
  }

  lemma IndexTagExact(i: nat, n: nat)
    requires i < n
    ensures |IndexTag(i, n)| == |Decimal(n - 1)| && ParseNat(IndexTag(i, n)) == Some(i)
  {
    DecimalLonger(i, n - 1);
    ZFillValue(i, |Decimal(n - 1)|);
  }

  /** The rename of (checkpoint index, section name) is injective. */
  lemma SectionNamesInjective(i: nat, a: string, j: nat, b: string, n: nat)
    requires i < n && j < n && HasCpu(a) && HasCpu(b)
    requires Rename(a, IndexTag(i, n)) == Rename(b, IndexTag(j, n))
    ensures i == j && a == b
  {
    IndexTagExact(i, n);
    IndexTagExact(j, n);
    RenameInjective(a, IndexTag(i, n), b, IndexTag(j, n));
  }

  // ----- sections -----

  datatype Value = Number(n: nat) | Other(s: string)

  datatype Section = Section(name: string, items: map<string, Value>)

  /** A checkpoint directory: the sections of `m5.cpt` in order, and the memory. */
  datatype Directory = Directory(sections: seq<Section>, memory: seq<byte>)

  /** A checkpoint with the page counter and the tick it records. */
  datatype Cpt = Cpt(sections: seq<Section>, pagePtr: nat, curTick: nat, memory: seq<byte>)

  const STORE: string := "system.physmem.store0"

  /** `workload.FdMap256$`, where the dot stands for any character. */
  predicate IsFdMap(name: string) {
    |name| >= 17 && name[|name| - 8..] == "FdMap256" && name[|name| - 17..|name| - 9] == "workload"
  }

  /** An item of a cpu section: the page address is moved up, all else is copied. */
  function MovedItem(key: string, v: Value, base: nat): Value {
    if key == "paddr" && v.Number? then Number(v.n + base) else v
  }

  function MovedItems(items: map<string, Value>, base: nat): map<string, Value> {
    map key | key in items :: MovedItem(key, items[key], base)
  }

  /** A cpu section of checkpoint `i`: renamed, its page address moved up, its process id set. */
  function Moved(sec: Section, i: nat, n: nat, base: nat): Section
    requires i < n
  {
    var items := MovedItems(sec.items, base);
    Section(Rename(sec.name, IndexTag(i, n)), if IsFdMap(sec.name) then items["M5_pid" := Number(i)] else items)
  }

  /** `int(...)` of the page address fails. */
  predicate Malformed(sec: Section) {
    HasCpu(sec.name) && "paddr" in sec.items && sec.items["paddr"].Other?
  }

  /** The sections one checkpoint contributes: only the last one keeps those that do not belong to a cpu. */
  function Part(sections: seq<Section>, i: nat, n: nat, base: nat): seq<Section>
    requires i < n
  {
    if sections == [] then []
    else
      var front := Part(sections[..|sections| - 1], i, n, base);
      var sec := sections[|sections| - 1];
      if HasCpu(sec.name) then front + [Moved(sec, i, n, base)]
      else if sec.name == "system" || sec.name == "Globals" || i != n - 1 then front
      else front + [sec]
  }

  // ----- pages -----

  /** Pages of the first `k` checkpoints. */
  function Pages(cpts: seq<Cpt>, k: nat): nat
    requires k <= |cpts|
  {
    if k == 0 then 0 else Pages(cpts, k - 1) + cpts[k - 1].pagePtr
  }

  /** The bytes read from one checkpoint: page by page, short when its memory is. */
  function Taken(c: Cpt): seq<byte> {
    if |c.memory| <= c.pagePtr * PAGE then c.memory else c.memory[..c.pagePtr * PAGE]
  }

  /** What is written for the first `k` checkpoints. */
  function Memories(cpts: seq<Cpt>, k: nat): seq<byte>
    requires k <= |cpts|
  {
    if k == 0 then [] else Memories(cpts, k - 1) + Taken(cpts[k - 1])
  }

  function Configs(cpts: seq<Cpt>, k: nat): seq<Section>
    requires k <= |cpts|
  {
    if k == 0 then [] else Configs(cpts, k - 1) + Part(cpts[k - 1].sections, k - 1, |cpts|, Base(cpts, k - 1))
  }

  function Ticks(cpts: seq<Cpt>, k: nat): nat
    requires k <= |cpts|
  {
    if k == 0 then 0
    else if cpts[k - 1].curTick > Ticks(cpts, k - 1) then cpts[k - 1].curTick else Ticks(cpts, k - 1)
  }

  /** Where the relocation puts checkpoint `i`. */
  function Base(cpts: seq<Cpt>, i: nat): nat
    requires i <= |cpts|
  {
    Pages(cpts, i) * PAGE
  }

  /** Pages of padding: until the page total reaches the requested memory size. */
  function PadPages(pages: nat, memorySize: int): nat {
    if pages * PAGE >= memorySize then 0 else (memorySize - pages * PAGE + PAGE - 1) / PAGE
  }

  /** The padding: pages of the character '0'. */
  function Padding(pages: nat): seq<byte> {
    seq(pages * PAGE, _ => 48)
  }

  datatype Aggregate = Failed | Done(config: seq<Section>, memory: seq<byte>, pagePtr: nat, rangeSize: nat)

  /** The range size is recorded in the store section of the last checkpoint. */
  function WithRange(sections: seq<Section>, size: nat): seq<Section> {
    seq(|sections|, k requires 0 <= k < |sections| =>
      if sections[k].name == STORE then sections[k].(items := sections[k].items["range_size" := Number(size)]) else sections[k])
  }

  ghost predicate HasStore(c: Cpt) {
    exists s :: s in c.sections && s.name == STORE
  }

  // ----- the loops -----

  method ReadPages(c: Cpt) returns (out: seq<byte>)
    ensures out == Taken(c)
  {
    out := [];
    var pos: nat := 0;
    var x := 0;
    while x < c.pagePtr
      invariant 0 <= x <= c.pagePtr
      invariant pos == if x * PAGE <= |c.memory| then x * PAGE else |c.memory|
      invariant out == c.memory[..pos]
    {
      var end := if pos + PAGE <= |c.memory| then pos + PAGE else |c.memory|;
      var bytesRead := c.memory[pos..end];
      out := out + bytesRead;
      pos := end;
      x := x + 1;
    }
    assert |c.memory| <= c.pagePtr * PAGE ==> c.memory[..pos] == c.memory;
  }

  /** The loop over the items of a section, in whatever order they come. */
  method MoveItems(source: map<string, Value>, base: nat) returns (ok: bool, items: map<string, Value>)
    ensures ok <==> !("paddr" in source && source["paddr"].Other?)
    ensures ok ==> items == MovedItems(source, base)
  {
    items := map[];
    var rest := source.Keys;
    while rest != {}
      invariant rest <= source.Keys && items.Keys == source.Keys - rest
      invariant forall key :: key in items ==> items[key] == MovedItem(key, source[key], base)
      invariant "paddr" in items ==> source["paddr"].Number?
      decreases |rest|
    {
      var key :| key in rest;
      rest := rest - {key};
      if key == "paddr" {
        if source[key].Other? {
          return false, items;
        }
        items := items[key := Number(source[key].n + base)];
      } else {
        items := items[key := source[key]];
      }
    }
    ok := true;
  }

  method MoveSection(sec: Section, i: nat, n: nat, base: nat) returns (ok: bool, out: Section)
    requires i < n && HasCpu(sec.name)
    ensures ok <==> !Malformed(sec)
    ensures ok ==> out == Moved(sec, i, n, base)
  {
    var items;
    ok, items := MoveItems(sec.items, base);
    if ok && IsFdMap(sec.name) {
      items := items["M5_pid" := Number(i)];
    }
    out := Section(Rename(sec.name, IndexTag(i, n)), items);
  }

  method RenameSections(c: Cpt, i: nat, n: nat, base: nat) returns (ok: bool, out: seq<Section>)
    requires i < n
    ensures ok <==> forall s :: s in c.sections ==> !Malformed(s)
    ensures ok ==> out == Part(c.sections, i, n, base)
  {
    out := [];
    assert c.sections[..0] == [];
    for k := 0 to |c.sections|
      invariant forall s :: s in c.sections[..k] ==> !Malformed(s)
      invariant out == Part(c.sections[..k], i, n, base)
    {
      var sec := c.sections[k];
      assert c.sections[..k + 1] == c.sections[..k] + [sec] && c.sections[..k + 1][..k] == c.sections[..k];
      if HasCpu(sec.name) {
        var good, moved := MoveSection(sec, i, n, base);
        if !good {
          assert sec in c.sections;
          return false, out;
        }
        out := out + [moved];
      } else if sec.name == "system" || sec.name == "Globals" {
      } else if i == n - 1 {
        out := out + [sec];
      }
    }
    assert c.sections[..|c.sections|] == c.sections;
    ok := true;
  }

  method Pad(memory: seq<byte>, pages: nat, memorySize: int) returns (out: seq<byte>, pagePtr: nat)
    ensures out == memory + Padding(PadPages(pages, memorySize)) && pagePtr == pages + PadPages(pages, memorySize)
  {
    out, pagePtr := memory, pages;
    var fileSize := pages * PAGE;
    ghost var k: nat := 0;
    assert memory + Padding(0) == memory;
    while fileSize < memorySize
      invariant pagePtr == pages + k && fileSize == pagePtr * PAGE && k <= PadPages(pages, memorySize)
      invariant out == memory + Padding(k)
      decreases memorySize - fileSize
    {
      assert Padding(k + 1) == Padding(k) + Padding(1);
      out := out + Padding(1);
      fileSize := fileSize + PAGE;
      pagePtr := pagePtr + 1;
      k := k + 1;
    }
  }

  /** `config.get("system", "pagePtr")`, or None when there is no such number. */
  function PageCount(sections: seq<Section>): Option<nat> {
    if sections == [] then None
    else
      var sec := sections[|sections| - 1];
      if sec.name != "system" then PageCount(sections[..|sections| - 1])
      else if "pagePtr" in sec.items && sec.items["pagePtr"].Number? then Some(sec.items["pagePtr"].n)
      else None
  }

  /** The tick of the section Globals, 0 without that section, or None when it has no such number. */
  function TickOf(sections: seq<Section>): Option<nat> {
    if sections == [] then Some(0)
    else
      var sec := sections[|sections| - 1];
      if sec.name != "Globals" then TickOf(sections[..|sections| - 1])
      else if "curTick" in sec.items && sec.items["curTick"].Number? then Some(sec.items["curTick"].n)
      else None
  }

  function OrZero(x: Option<nat>): nat {
    if x.Some? then x.value else 0
  }

  function Loaded(d: Directory): Cpt {
    Cpt(d.sections, OrZero(PageCount(d.sections)), OrZero(TickOf(d.sections)), d.memory)
  }

  function LoadedAll(ds: seq<Directory>): (cpts: seq<Cpt>)
    ensures |cpts| == |ds| && forall i :: 0 <= i < |ds| ==> cpts[i] == Loaded(ds[i])
  {
    seq(|ds|, i requires 0 <= i < |ds| => Loaded(ds[i]))
  }

  ghost predicate Readable(d: Directory) {
    && PageCount(d.sections).Some? && TickOf(d.sections).Some?
    && forall s :: s in d.sections ==> !Malformed(s)
  }

  method ReadCounters(d: Directory) returns (pages: Option<nat>, tick: Option<nat>)
    ensures pages == PageCount(d.sections) && tick == TickOf(d.sections)
  {
    pages, tick := None, Some(0);
    assert d.sections[..0] == [];
    for k := 0 to |d.sections|
      invariant pages == PageCount(d.sections[..k]) && tick == TickOf(d.sections[..k])
    {
      var sec := d.sections[k];
      assert d.sections[..k + 1][..k] == d.sections[..k];
      if sec.name == "system" {
        pages := if "pagePtr" in sec.items && sec.items["pagePtr"].Number? then Some(sec.items["pagePtr"].n) else None;
      } else if sec.name == "Globals" {
        tick := if "curTick" in sec.items && sec.items["curTick"].Number? then Some(sec.items["curTick"].n) else None;
      }
    }
    assert d.sections[..|d.sections|] == d.sections;
  }

  ghost predicate ReadableTo(ds: seq<Directory>, k: nat)
    requires k <= |ds|
  {
    forall j :: 0 <= j < k ==> Readable(ds[j])
  }

  /** A non-empty list of readable checkpoints, the last of which has the section for the memory's size. */
  ghost predicate Aggregable(ds: seq<Directory>) {
    ds != [] && ReadableTo(ds, |ds|) && HasStore(Loaded(ds[|ds| - 1]))
  }

  function SystemSection(pagePtr: nat, n: nat): Section {
    Section("system", map["pagePtr" := Number(pagePtr), "nextPID" := Number(n)])
  }

  function GlobalsSection(tick: nat): Section {
    Section("Globals", map["curTick" := Number(tick)])
  }

  function MergedConfig(cpts: seq<Cpt>, rangeSize: nat): seq<Section> {
    WithRange(Configs(cpts, |cpts|), rangeSize)
    + [SystemSection(Pages(cpts, |cpts|), |cpts|), GlobalsSection(Ticks(cpts, |cpts|))]
  }

  function MergedMemory(cpts: seq<Cpt>, memorySize: int): seq<byte> {
    Memories(cpts, |cpts|) + Padding(PadPages(Pages(cpts, |cpts|), memorySize))
  }

  function RangeSize(cpts: seq<Cpt>, memorySize: int): nat {
    (Pages(cpts, |cpts|) + PadPages(Pages(cpts, |cpts|), memorySize)) * PAGE
  }

  /** What has been written after the first `i` checkpoints. */
  ghost predicate Written(
    cpts: seq<Cpt>, i: nat, config: seq<Section>, memory: seq<byte>, pagePtr: nat, maxTick: nat)
  {
    && i <= |cpts| && config == Configs(cpts, i) && memory == Memories(cpts, i)
    && pagePtr == Pages(cpts, i) && maxTick == Ticks(cpts, i)
  }

  /** One checkpoint of the main loop. */
  method AddCheckpoint(
    d: Directory, ghost cpts: seq<Cpt>, i: nat, n: nat, config: seq<Section>, memory: seq<byte>, pagePtr: nat, maxTick: nat)
    returns (ok: bool, config': seq<Section>, memory': seq<byte>, pagePtr': nat, maxTick': nat)
    requires i < n == |cpts| && cpts[i] == Loaded(d) && Written(cpts, i, config, memory, pagePtr, maxTick)
    ensures ok <==> Readable(d)
    ensures ok ==> Written(cpts, i + 1, config', memory', pagePtr', maxTick')
  {
    config', memory', pagePtr', maxTick' := config, memory, pagePtr, maxTick;
    var pages, tick := ReadCounters(d);
    ok := pages.Some? && tick.Some?;
    if ok {
      var c := Cpt(d.sections, pages.value, tick.value, d.memory);
      var part, bytes;
      ok, part := RenameSections(c, i, n, pagePtr * PAGE);
      bytes := ReadPages(c);
      config', memory' := config + part, memory + bytes;
      pagePtr' := pagePtr + pages.value;
      if tick.value > maxTick {
        maxTick' := tick.value;
      }
    }
  }

  /** What follows the main loop: padding, the range size, and the two sections of the whole. */
  method Conclude(
    ghost cpts: seq<Cpt>, n: nat, config: seq<Section>, memory: seq<byte>, pagePtr: nat, maxTick: nat, memorySize: int)
    returns (r: Aggregate)
    requires n == |cpts| && Written(cpts, n, config, memory, pagePtr, maxTick)
    ensures r == Done(MergedConfig(cpts, RangeSize(cpts, memorySize)), MergedMemory(cpts, memorySize),
                      Pages(cpts, |cpts|), RangeSize(cpts, memorySize))
  {
    var padded, total := Pad(memory, pagePtr, memorySize);
    r := Done(WithRange(config, total * PAGE) + [SystemSection(pagePtr, n), GlobalsSection(maxTick)],
              padded, pagePtr, total * PAGE);
  }

  // ----- memory -----

  /** A checkpoint whose memory holds all the pages it counts. */
  predicate Full(c: Cpt) {
    c.pagePtr * PAGE <= |c.memory|
  }

  lemma {:induction false} MemoriesLength(cpts: seq<Cpt>, k: nat)
    requires k <= |cpts|
    ensures |Memories(cpts, k)| <= Base(cpts, k)
    ensures |Memories(cpts, k)| == Base(cpts, k) <==> forall j :: 0 <= j < k ==> Full(cpts[j])
  {
    if k > 0 {
      MemoriesLength(cpts, k - 1);
      var last := cpts[k - 1];
      assert |Taken(last)| <= last.pagePtr * PAGE && (|Taken(last)| == last.pagePtr * PAGE <==> Full(last));
    }
  }

  lemma {:induction false} MemoriesPrefix(cpts: seq<Cpt>, i: nat, j: nat)
    requires i <= j <= |cpts|
    ensures Memories(cpts, i) <= Memories(cpts, j)
  {
    if i < j {
      MemoriesPrefix(cpts, i, j - 1);
    }
  }

  /** Where the bytes of checkpoint `i` really are. */
  lemma MemoriesAt(cpts: seq<Cpt>, i: nat, a: nat)
    requires i < |cpts| && a < |Taken(cpts[i])|
    ensures |Memories(cpts, i)| + a < |Memories(cpts, |cpts|)|
    ensures Memories(cpts, |cpts|)[|Memories(cpts, i)| + a] == Taken(cpts[i])[a]
  {
    MemoriesPrefix(cpts, i + 1, |cpts|);
    InExtension(Memories(cpts, i), Taken(cpts[i]), Memories(cpts, |cpts|), a);
  }

  lemma InExtension(x: seq<byte>, y: seq<byte>, z: seq<byte>, a: nat)
    requires x + y <= z && a < |y|
    ensures |x| + a < |z| && z[|x| + a] == y[a]
  {
    assert z[..|x + y|] == x + y;
  }

  /** Byte `a` of checkpoint `i` is found at its relocated address. */
  ghost predicate Found(cpts: seq<Cpt>, memorySize: int, i: nat, a: nat)
    requires i < |cpts| && a < |cpts[i].memory|
  {
    && Base(cpts, i) + a < |MergedMemory(cpts, memorySize)|
    && MergedMemory(cpts, memorySize)[Base(cpts, i) + a] == cpts[i].memory[a]
  }

  ghost predicate Placed(cpts: seq<Cpt>, memorySize: int, i: nat)
    requires i < |cpts|
  {
    forall a: nat :: a < |Taken(cpts[i])| ==> Found(cpts, memorySize, i, a)
  }

  /** Aggregated memory: each byte of a checkpoint's pages is found at its relocated address. The condition is that the
      checkpoints in front of it have all the pages they count. */
  lemma RelocatedByte(cpts: seq<Cpt>, memorySize: int, i: nat, a: nat)
    requires i < |cpts| && a < |Taken(cpts[i])| && forall j :: 0 <= j < i ==> Full(cpts[j])
    ensures Found(cpts, memorySize, i, a)
  {
    MemoriesLength(cpts, i);
    MemoriesAt(cpts, i, a);
  }

  function WithMemory(cpts: seq<Cpt>, i: nat, memory: seq<byte>): seq<Cpt>
    requires i < |cpts|
  {
    cpts[i := cpts[i].(memory := memory)]
  }

  /** Checkpoint `i` with its first byte set and all others zero. */
  function Marked(cpts: seq<Cpt>, i: nat, b: byte): (r: seq<Cpt>)
    requires i < |cpts| && cpts[i].memory != []
    ensures |r| == |cpts| && |r[i].memory| == |cpts[i].memory| && r[i].memory[0] == b
  {
    WithMemory(cpts, i, [b] + seq(|cpts[i].memory| - 1, _ => 0))
  }

  /** The same list but for the first byte of checkpoint `i`. */
  ghost predicate SameButMark(c: seq<Cpt>, d: seq<Cpt>, i: nat) {
    && |c| == |d| && i < |c| && c[i].pagePtr == d[i].pagePtr && |Taken(c[i])| == |Taken(d[i])|
    && (forall j :: 0 <= j < |c| && j != i ==> c[j] == d[j])
    && (forall a :: 0 < a < |Taken(c[i])| ==> Taken(c[i])[a] == Taken(d[i])[a])
  }

  lemma MarkedAlike(cpts: seq<Cpt>, i: nat)
    requires i < |cpts| && cpts[i].memory != []
    ensures SameButMark(Marked(cpts, i, 0), Marked(cpts, i, 1), i)
  {
  }

  /** Page counts do not depend on the memory. */
  lemma {:induction false} SamePages(c: seq<Cpt>, d: seq<Cpt>, k: nat)
    requires k <= |c| == |d| && forall j :: 0 <= j < k ==> c[j].pagePtr == d[j].pagePtr
    ensures Pages(c, k) == Pages(d, k)
  {
    if k > 0 {
      SamePages(c, d, k - 1);
    }
  }

  lemma {:induction false} SameFront(c: seq<Cpt>, d: seq<Cpt>, k: nat)
    requires k <= |c| == |d| && forall j :: 0 <= j < k ==> c[j] == d[j]
    ensures Memories(c, k) == Memories(d, k)
  {
    if k > 0 {
      SameFront(c, d, k - 1);
    }
  }

  lemma AppendAgrees(a: seq<byte>, x: seq<byte>, b: seq<byte>, y: seq<byte>, p: nat)
    requires |a| == |b| && |x| == |y|
    requires p < |a| ==> a[p] == b[p]
    requires |a| <= p < |a| + |x| ==> x[p - |a|] == y[p - |a|]
    ensures |a + x| == |b + y| && (p < |a + x| ==> (a + x)[p] == (b + y)[p])
  {
  }

  /** The mark shows at one place of the memory only, the one where the checkpoint's bytes begin. */
  lemma {:induction false} MarkAtOnePlace(c: seq<Cpt>, d: seq<Cpt>, i: nat, k: nat, p: nat)
    requires SameButMark(c, d, i) && i < k <= |c| && p != |Memories(c, i)|
    ensures |Memories(c, k)| == |Memories(d, k)|
    ensures p < |Memories(c, k)| ==> Memories(c, k)[p] == Memories(d, k)[p]
  {
    if k == i + 1 {
      SameFront(c, d, i);
    } else {
      MarkAtOnePlace(c, d, i, k - 1, p);
    }
    AppendAgrees(Memories(c, k - 1), Taken(c[k - 1]), Memories(d, k - 1), Taken(d[k - 1]), p);
  }

  /** What is found at an address is the same with either mark, unless it is the place of the mark. */
  lemma MarkUnseen(c: seq<Cpt>, d: seq<Cpt>, memorySize: int, i: nat, p: nat)
    requires SameButMark(c, d, i) && p != |Memories(c, i)|
    ensures |MergedMemory(c, memorySize)| == |MergedMemory(d, memorySize)|
    ensures p < |MergedMemory(c, memorySize)| ==> MergedMemory(c, memorySize)[p] == MergedMemory(d, memorySize)[p]
  {
    MarkAtOnePlace(c, d, i, |c|, p);
    SamePages(c, d, |c|);
  }

  /** If a checkpoint in front is short, some contents of checkpoint `i` are not found at the relocated address. */
  lemma ShortMisplaces(cpts: seq<Cpt>, memorySize: int, i: nat) returns (b: byte)
    requires i < |cpts| && Taken(cpts[i]) != [] && exists j :: 0 <= j < i && !Full(cpts[j])
    ensures !Placed(Marked(cpts, i, b), memorySize, i)
  {
    var c, d := Marked(cpts, i, 0), Marked(cpts, i, 1);
    MarkedAlike(cpts, i);
    SamePages(c, d, i);
    var j :| 0 <= j < i && !Full(cpts[j]);
    assert c[j] == cpts[j];
    MemoriesLength(c, i);
    MarkUnseen(c, d, memorySize, i, Base(c, i));
    assert Placed(c, memorySize, i) ==> Found(c, memorySize, i, 0);
    assert Placed(d, memorySize, i) ==> Found(d, memorySize, i, 0);
    b := if Placed(c, memorySize, i) then 1 else 0;
  }

  /** The condition is exact: whatever checkpoint `i` holds is found at its relocated addresses if and only if all
      checkpoints in front of it are full. */
  lemma RelocationExact(cpts: seq<Cpt>, memorySize: int, i: nat)
    requires i < |cpts| && Taken(cpts[i]) != []
    ensures (forall memory: seq<byte> :: |memory| == |cpts[i].memory| ==> Placed(WithMemory(cpts, i, memory), memorySize, i))
       <==> forall j :: 0 <= j < i ==> Full(cpts[j])
  {
    if forall j :: 0 <= j < i ==> Full(cpts[j]) {
      forall memory: seq<byte> | |memory| == |cpts[i].memory|
        ensures Placed(WithMemory(cpts, i, memory), memorySize, i)
      {
        var c := WithMemory(cpts, i, memory);
        assert forall j :: 0 <= j < i ==> c[j] == cpts[j];
        forall a: nat | a < |Taken(c[i])|
          ensures Found(c, memorySize, i, a)
        {
          RelocatedByte(c, memorySize, i, a);
        }
      }
    } else {
      var b := ShortMisplaces(cpts, memorySize, i);
      var memory := Marked(cpts, i, b)[i].memory;
      assert Marked(cpts, i, b) == WithMemory(cpts, i, memory);
    }
  }

  lemma {:induction false} PagesMonotone(cpts: seq<Cpt>, i: nat, j: nat)
    requires i < j <= |cpts|
    ensures Pages(cpts, i) + cpts[i].pagePtr <= Pages(cpts, j)
  {
    if i < j - 1 {
      PagesMonotone(cpts, i, j - 1);
    }
  }

  /** Relocated windows do not overlap. */
  lemma WindowsDisjoint(cpts: seq<Cpt>, i: nat, a: nat, j: nat, b: nat)
    requires i < |cpts| && j < |cpts| && a < cpts[i].pagePtr * PAGE && b < cpts[j].pagePtr * PAGE
    requires Base(cpts, i) + a == Base(cpts, j) + b
    ensures i == j && a == b
  {
    if i < j {
      PagesMonotone(cpts, i, j);
    } else if j < i {
      PagesMonotone(cpts, j, i);
    }
  }

  function RoundUp(size: int): int {
    if size <= 0 then 0 else (size + PAGE - 1) / PAGE * PAGE
  }

  /** The recorded range is the larger of the page total and the requested size rounded up to pages; the memory written
      is exactly that long if and only if every checkpoint is full. */
  lemma FinalSize(cpts: seq<Cpt>, memorySize: int)
    ensures var range := RangeSize(cpts, memorySize);
            && range == (if Base(cpts, |cpts|) >= RoundUp(memorySize) then Base(cpts, |cpts|) else RoundUp(memorySize))
            && |MergedMemory(cpts, memorySize)| <= range
            && (|MergedMemory(cpts, memorySize)| == range <==> forall j :: 0 <= j < |cpts| ==> Full(cpts[j]))
  {
    MemoriesLength(cpts, |cpts|);
  }

  // ----- no section twice -----

  /** As a configuration file is read: section names are distinct. */
  ghost predicate DistinctNames(sections: seq<Section>) {
    forall i, j :: 0 <= i < j < |sections| ==> sections[i].name != sections[j].name
  }

  /** Where a section of a part comes from. */
  ghost predicate FromPart(name: string, sections: seq<Section>, i: nat, n: nat)
    requires i < n
  {
    || (exists k :: 0 <= k < |sections| && HasCpu(sections[k].name) && name == Rename(sections[k].name, IndexTag(i, n)))
    || (i == n - 1 && !HasCpu(name) && name != "system" && name != "Globals"
        && exists k :: 0 <= k < |sections| && sections[k].name == name)
  }

  lemma {:induction false} PartNames(sections: seq<Section>, i: nat, n: nat, base: nat, name: string)
    requires i < n && exists s :: s in Part(sections, i, n, base) && s.name == name
    ensures FromPart(name, sections, i, n)
  {
    var k := |sections| - 1;
    var front, last := sections[..k], sections[k];
    if exists s :: s in Part(front, i, n, base) && s.name == name {
      PartNames(front, i, n, base, name);
      assert forall m :: 0 <= m < k ==> front[m] == sections[m];
    } else {
      assert sections[k] == last;
    }
  }

  ghost predicate Named(sections: seq<Section>, name: string) {
    exists k :: 0 <= k < |sections| && sections[k].name == name
  }

  lemma DistinctAppend(a: seq<Section>, b: seq<Section>)
    requires DistinctNames(a) && DistinctNames(b) && forall name :: !(Named(a, name) && Named(b, name))
    ensures DistinctNames(a + b)
  {
    forall i, j | 0 <= i < j < |a + b|
      ensures (a + b)[i].name != (a + b)[j].name
    {
      if i < |a| <= j {
        assert Named(a, a[i].name) && !Named(b, a[i].name);
        assert b[j - |a|].name != a[i].name;
      }
    }
  }

  lemma NamedInPart(sections: seq<Section>, i: nat, n: nat, base: nat, name: string)
    requires i < n && Named(Part(sections, i, n, base), name)
    ensures FromPart(name, sections, i, n)
  {
    var part := Part(sections, i, n, base);
    var k :| 0 <= k < |part| && part[k].name == name;
    assert part[k] in part;
    PartNames(sections, i, n, base, name);
  }

  /** A new section's name is not one the earlier sections gave. */
  lemma NewName(front: seq<Section>, sec: Section, i: nat, n: nat, name: string)
    requires i < n && forall k :: 0 <= k < |front| ==> front[k].name != sec.name
    requires name == if HasCpu(sec.name) then Rename(sec.name, IndexTag(i, n)) else sec.name
    ensures !FromPart(name, front, i, n)
  {
    RenameKeepsCpu(sec.name, IndexTag(i, n));
    forall k | 0 <= k < |front| && HasCpu(front[k].name)
      ensures name != Rename(front[k].name, IndexTag(i, n))
    {
      RenameKeepsCpu(front[k].name, IndexTag(i, n));
      if HasCpu(sec.name) && Rename(sec.name, IndexTag(i, n)) == Rename(front[k].name, IndexTag(i, n)) {
        SectionNamesInjective(i, sec.name, i, front[k].name, n);
      }
    }
  }

  lemma DistinctLast(front: seq<Section>, sec: Section)
    requires DistinctNames(front) && !Named(front, sec.name)
    ensures DistinctNames(front + [sec])
  {
  }

  lemma {:induction false} PartDistinct(sections: seq<Section>, i: nat, n: nat, base: nat)
    requires i < n && DistinctNames(sections)
    ensures DistinctNames(Part(sections, i, n, base))
  {
    if sections != [] {
      var k := |sections| - 1;
      var front, sec := sections[..k], sections[k];
      PartDistinct(front, i, n, base);
      var name := if HasCpu(sec.name) then Rename(sec.name, IndexTag(i, n)) else sec.name;
      NewName(front, sec, i, n, name);
      if Named(Part(front, i, n, base), name) {
        NamedInPart(front, i, n, base, name);
      }
      DistinctLast(Part(front, i, n, base), if HasCpu(sec.name) then Moved(sec, i, n, base) else sec);
    }
  }

  lemma {:induction false} NamedInConfigs(cpts: seq<Cpt>, k: nat, name: string) returns (i: nat)
    requires k <= |cpts| && Named(Configs(cpts, k), name)
    ensures i < k && FromPart(name, cpts[i].sections, i, |cpts|)
  {
    var front, all := Configs(cpts, k - 1), Configs(cpts, k);
    var part := Part(cpts[k - 1].sections, k - 1, |cpts|, Base(cpts, k - 1));
    assert all == front + part;
    var m :| 0 <= m < |all| && all[m].name == name;
    if m < |front| {
      assert front[m].name == name;
      i := NamedInConfigs(cpts, k - 1, name);
    } else {
      assert part[m - |front|].name == name;
      NamedInPart(cpts[k - 1].sections, k - 1, |cpts|, Base(cpts, k - 1), name);
      i := k - 1;
    }
  }

  /** A name comes from one checkpoint only. */
  lemma OneOrigin(name: string, a: seq<Section>, i: nat, b: seq<Section>, j: nat, n: nat)
    requires i < n && j < n && FromPart(name, a, i, n) && FromPart(name, b, j, n)
    ensures i == j
  {
    FromPartCpu(name, a, i, n);
    FromPartCpu(name, b, j, n);
    if HasCpu(name) {
      var k :| 0 <= k < |a| && HasCpu(a[k].name) && name == Rename(a[k].name, IndexTag(i, n));
      var m :| 0 <= m < |b| && HasCpu(b[m].name) && name == Rename(b[m].name, IndexTag(j, n));
      SectionNamesInjective(i, a[k].name, j, b[m].name, n);
    }
  }

  lemma FromPartCpu(name: string, sections: seq<Section>, i: nat, n: nat)
    requires i < n && FromPart(name, sections, i, n)
    ensures HasCpu(name) <==>
            exists k :: 0 <= k < |sections| && HasCpu(sections[k].name) && name == Rename(sections[k].name, IndexTag(i, n))
    ensures !HasCpu(name) ==> i == n - 1
  {
    if k :| 0 <= k < |sections| && HasCpu(sections[k].name) && name == Rename(sections[k].name, IndexTag(i, n)) {
      RenameKeepsCpu(sections[k].name, IndexTag(i, n));
    }
  }

  lemma {:induction false} ConfigsDistinct(cpts: seq<Cpt>, k: nat)
    requires k <= |cpts| && forall j :: 0 <= j < |cpts| ==> DistinctNames(cpts[j].sections)
    ensures DistinctNames(Configs(cpts, k))
  {
    if k > 0 {
      var front := Configs(cpts, k - 1);
      var part := Part(cpts[k - 1].sections, k - 1, |cpts|, Base(cpts, k - 1));
      ConfigsDistinct(cpts, k - 1);
      PartDistinct(cpts[k - 1].sections, k - 1, |cpts|, Base(cpts, k - 1));
      forall name
        ensures !(Named(front, name) && Named(part, name))
      {
        if Named(front, name) && Named(part, name) {
          var i := NamedInConfigs(cpts, k - 1, name);
          NamedInPart(cpts[k - 1].sections, k - 1, |cpts|, Base(cpts, k - 1), name);
          OneOrigin(name, cpts[i].sections, i, cpts[k - 1].sections, k - 1, |cpts|);
        }
      }
      DistinctAppend(front, part);
    }
  }

  lemma {:induction false} CpuHasC(s: string)
    requires HasCpu(s)
    ensures 'c' in s
  {
    if !StartsCpu(s) {
      CpuHasC(s[1..]);
    }
  }

  lemma ReservedNotThere(cpts: seq<Cpt>, name: string)
    requires name == "system" || name == "Globals"
    ensures !Named(Configs(cpts, |cpts|), name)
  {
    if Named(Configs(cpts, |cpts|), name) {
      var i := NamedInConfigs(cpts, |cpts|, name);
      ReservedNotFrom(name, cpts[i].sections, i, |cpts|);
    }
  }

  lemma ReservedNotFrom(name: string, sections: seq<Section>, i: nat, n: nat)
    requires i < n && (name == "system" || name == "Globals")
    ensures !FromPart(name, sections, i, n)
  {
    assert 'c' !in name;
    forall k | 0 <= k < |sections| && HasCpu(sections[k].name)
      ensures name != Rename(sections[k].name, IndexTag(i, n))
    {
      RenameKeepsCpu(sections[k].name, IndexTag(i, n));
      CpuHasC(Rename(sections[k].name, IndexTag(i, n)));
    }
  }

  /** The merged file has no section twice. */
  lemma MergedDistinct(cpts: seq<Cpt>, rangeSize: nat)
    requires forall j :: 0 <= j < |cpts| ==> DistinctNames(cpts[j].sections)
    ensures DistinctNames(MergedConfig(cpts, rangeSize))
  {
    var configs := Configs(cpts, |cpts|);
    var ranged := WithRange(configs, rangeSize);
    ConfigsDistinct(cpts, |cpts|);
    assert forall k :: 0 <= k < |ranged| ==> ranged[k].name == configs[k].name;
    var tail := [SystemSection(Pages(cpts, |cpts|), |cpts|), GlobalsSection(Ticks(cpts, |cpts|))];
    assert "system"[0] != "Globals"[0];
    forall name
      ensures !(Named(ranged, name) && Named(tail, name))
    {
      if Named(ranged, name) && Named(tail, name) {
        assert Named(configs, name);
        ReservedNotThere(cpts, name);
      }
    }
    DistinctAppend(ranged, tail);
  }

  // ----- a page and its section stay together -----

  lemma {:induction false} PartContains(sections: seq<Section>, i: nat, n: nat, base: nat, sec: Section)
    requires i < n && sec in sections && HasCpu(sec.name)
    ensures Moved(sec, i, n, base) in Part(sections, i, n, base)
  {
    if sec != sections[|sections| - 1] {
      PartContains(sections[..|sections| - 1], i, n, base, sec);
    }
  }

  lemma {:induction false} ConfigsContain(cpts: seq<Cpt>, k: nat, i: nat, sec: Section)
    requires i < k <= |cpts| && sec in cpts[i].sections && HasCpu(sec.name)
    ensures Moved(sec, i, |cpts|, Base(cpts, i)) in Configs(cpts, k)
  {
    if i < k - 1 {
      ConfigsContain(cpts, k - 1, i, sec);
    } else {
      PartContains(cpts[i].sections, i, |cpts|, Base(cpts, i), sec);
    }
  }

  lemma RangeKeepsCpu(sections: seq<Section>, size: nat, sec: Section)
    requires sec in sections && HasCpu(sec.name)
    ensures sec in WithRange(sections, size)
  {
    var k :| 0 <= k < |sections| && sections[k] == sec;
    CpuHasC(sec.name);
    assert 'c' !in STORE;
    assert WithRange(sections, size)[k] == sec;
  }

  /** The merged file names, under the renamed section, the address at which the merged memory holds the byte the
      original section's page address named. */
  lemma PageFollowsSection(cpts: seq<Cpt>, memorySize: int, i: nat, sec: Section, a: nat)
    requires i < |cpts| && sec in cpts[i].sections && HasCpu(sec.name)
    requires "paddr" in sec.items && sec.items["paddr"] == Number(a)
    requires a < cpts[i].pagePtr * PAGE && a < |cpts[i].memory| && forall j :: 0 <= j < i ==> Full(cpts[j])
    ensures exists s :: s in MergedConfig(cpts, RangeSize(cpts, memorySize)) && s.name == Rename(sec.name, IndexTag(i, |cpts|))
                        && "paddr" in s.items && s.items["paddr"].Number?
                        && s.items["paddr"].n < |MergedMemory(cpts, memorySize)|
                        && MergedMemory(cpts, memorySize)[s.items["paddr"].n] == cpts[i].memory[a]
  {
    var n := |cpts|;
    var moved := Moved(sec, i, n, Base(cpts, i));
    ConfigsContain(cpts, n, i, sec);
    RenameKeepsCpu(sec.name, IndexTag(i, n));
    RangeKeepsCpu(Configs(cpts, n), RangeSize(cpts, memorySize), moved);
    RelocatedByte(cpts, memorySize, i, a);
    assert "paddr" != "M5_pid";
    assert moved.items["paddr"] == Number(a + Base(cpts, i));
    assert moved in MergedConfig(cpts, RangeSize(cpts, memorySize));
  }

  // ----- the merged directory in the source's terms -----

  ghost predicate LastNamed(sections: seq<Section>, name: string, k: nat) {
    k < |sections| && sections[k].name == name && forall j :: k < j < |sections| ==> sections[j].name != name
  }

  /** The section of the name has the number under the key. */
  ghost predicate Records(sections: seq<Section>, name: string, key: string, v: nat) {
    exists k: nat :: LastNamed(sections, name, k) && key in sections[k].items && sections[k].items[key] == Number(v)
  }

  ghost predicate CountsPages(d: Directory, v: nat) {
    Records(d.sections, "system", "pagePtr", v)
  }

  ghost predicate AtTick(d: Directory, v: nat) {
    if exists s :: s in d.sections && s.name == "Globals" then Records(d.sections, "Globals", "curTick", v) else v == 0
  }

  /** The page counter and the tick of every checkpoint. */
  ghost predicate Counted(ds: seq<Directory>, counts: seq<nat>, ticks: seq<nat>) {
    && |counts| == |ds| == |ticks|
    && forall i :: 0 <= i < |ds| ==> CountsPages(ds[i], counts[i]) && AtTick(ds[i], ticks[i])
  }

  ghost function Total(counts: seq<nat>, k: nat): nat
    requires k <= |counts|
  {
    if k == 0 then 0 else Total(counts, k - 1) + counts[k - 1]
  }

  /** The pieces of a text between the separators. */
  ghost function Between(pieces: seq<string>, separator: string): string {
    if pieces == [] then "" else if |pieces| == 1 then pieces[0] else pieces[0] + separator + Between(pieces[1..], separator)
  }

  /** The number of the checkpoint, with as many digits as the number of the last one. */
  ghost predicate Tag(tag: string, i: nat, n: nat)
    requires i < n
  {
    Numeral(tag, i) && exists w: string :: Numeral(w, n - 1) && (|w| == 1 || w[0] != '0') && |w| == |tag|
  }

  ghost predicate Tagged(name: string, pieces: seq<string>, tag: string, renamed: string) {
    && name == Between(pieces, "cpu") && renamed == Between(pieces, "cpu" + tag)
    && forall p :: p in pieces ==> !Within("cpu", p)
  }

  /** Every "cpu" in the name is followed by the number of the checkpoint. */
  ghost predicate RenamedTo(name: string, i: nat, n: nat, renamed: string)
    requires i < n
  {
    exists pieces: seq<string>, tag: string :: Tag(tag, i, n) && Tagged(name, pieces, tag, renamed)
  }

  ghost predicate FdMap(name: string) {
    exists front: string, c: char :: name == front + "workload" + [c] + "FdMap256"
  }

  /** A cpu section: renamed, every item copied but for the page address, which moves up, and the process id. */
  ghost predicate MovedTo(s: Section, t: Section, i: nat, n: nat, base: nat)
    requires i < n
  {
    && RenamedTo(s.name, i, n, t.name)
    && t.items.Keys == s.items.Keys + (if FdMap(s.name) then {"M5_pid"} else {})
    && forall key :: key in t.items ==>
                       if FdMap(s.name) && key == "M5_pid" then t.items[key] == Number(i)
                       else if key == "paddr" then s.items[key].Number? && t.items[key] == Number(s.items[key].n + base)
                       else t.items[key] == s.items[key]
  }

  /** Any other section of the last checkpoint: as it is, but for the size of the memory. */
  ghost predicate KeptAs(s: Section, t: Section, size: nat) {
    && t.name == s.name
    && t.items == if s.name == "system.physmem.store0" then s.items["range_size" := Number(size)] else s.items
  }

  /** Section `sec` of checkpoint `cpt`. */
  datatype Origin = Origin(cpt: nat, sec: nat)

  /** All cpu sections are kept; of the others, those of the last checkpoint but for the two that are written anew. */
  ghost predicate KeptSection(ds: seq<Directory>, o: Origin) {
    && o.cpt < |ds| && o.sec < |ds[o.cpt].sections|
    && var name := ds[o.cpt].sections[o.sec].name;
       Within("cpu", name) || (o.cpt == |ds| - 1 && name != "system" && name != "Globals")
  }

  ghost predicate ExactlyKept(ds: seq<Directory>, from: seq<Origin>) {
    forall o :: o in from <==> KeptSection(ds, o)
  }

  ghost predicate InOrder(from: seq<Origin>) {
    forall a, b :: 0 <= a < b < |from| ==>
                     from[a].cpt < from[b].cpt || (from[a].cpt == from[b].cpt && from[a].sec < from[b].sec)
  }

  ghost predicate ComesFrom(ds: seq<Directory>, counts: seq<nat>, size: nat, o: Origin, t: Section)
    requires |counts| == |ds| && KeptSection(ds, o)
  {
    var s := ds[o.cpt].sections[o.sec];
    if Within("cpu", s.name) then MovedTo(s, t, o.cpt, |ds|, Total(counts, o.cpt) * 4096) else KeptAs(s, t, size)
  }

  /** The kept sections, checkpoint after checkpoint, each in its place. */
  ghost predicate SectionsFrom(ds: seq<Directory>, counts: seq<nat>, size: nat, from: seq<Origin>, sections: seq<Section>)
    requires |counts| == |ds|
  {
    && |from| == |sections| && InOrder(from) && ExactlyKept(ds, from)
    && forall m: nat :: m < |from| ==> from[m] in from && ComesFrom(ds, counts, size, from[m], sections[m])
  }

  ghost predicate SectionsAre(ds: seq<Directory>, counts: seq<nat>, size: nat, sections: seq<Section>)
    requires |counts| == |ds|
  {
    exists from: seq<Origin> :: SectionsFrom(ds, counts, size, from, sections)
  }

  /** The pages of the first `k` checkpoints, as far as their memories go. */
  ghost function BytesRead(ds: seq<Directory>, counts: seq<nat>, k: nat): seq<byte>
    requires k <= |ds| == |counts|
  {
    if k == 0 then []
    else
      var memory := ds[k - 1].memory;
      BytesRead(ds, counts, k - 1) + memory[..if counts[k - 1] * 4096 < |memory| then counts[k - 1] * 4096 else |memory|]
  }

  /** Bytes of the digit 0. */
  ghost function Zeros(k: nat): seq<byte> {
    seq(k, _ => 48)
  }

  /** The least number of whole pages that is enough for the pages there are and for the request. */
  ghost predicate LeastSize(pages: nat, memorySize: int, size: nat) {
    && size % 4096 == 0 && size >= pages * 4096 && size >= memorySize
    && (size == pages * 4096 || size - 4096 < memorySize)
  }

  ghost predicate Largest(ticks: seq<nat>, t: nat) {
    t in ticks && forall u :: u in ticks ==> u <= t
  }

  ghost predicate SystemIs(sec: Section, pages: nat, n: nat) {
    && sec.name == "system" && sec.items.Keys == {"pagePtr", "nextPID"}
    && sec.items["pagePtr"] == Number(pages) && sec.items["nextPID"] == Number(n)
  }

  ghost predicate GlobalsIs(sec: Section, ticks: seq<nat>) {
    && sec.name == "Globals" && sec.items.Keys == {"curTick"}
    && sec.items["curTick"].Number? && Largest(ticks, sec.items["curTick"].n)
  }

  ghost predicate FileIs(ds: seq<Directory>, counts: seq<nat>, ticks: seq<nat>, size: nat, config: seq<Section>)
    requires |counts| == |ds|
  {
    && |config| >= 2
    && SectionsAre(ds, counts, size, config[..|config| - 2])
    && SystemIs(config[|config| - 2], Total(counts, |ds|), |ds|) && GlobalsIs(config[|config| - 1], ticks)
  }

  ghost predicate PaddedTo(bytes: seq<byte>, pages: nat, size: nat, memory: seq<byte>) {
    size >= pages * 4096 && memory == bytes + Zeros(size - pages * 4096)
  }

  ghost predicate MergesTo(ds: seq<Directory>, memorySize: int, counts: seq<nat>, ticks: seq<nat>, r: Aggregate)
    requires r.Done? && |counts| == |ds|
  {
    && r.pagePtr == Total(counts, |ds|) && LeastSize(r.pagePtr, memorySize, r.rangeSize)
    && FileIs(ds, counts, ticks, r.rangeSize, r.config)
    && PaddedTo(BytesRead(ds, counts, |ds|), r.pagePtr, r.rangeSize, r.memory)
  }

  ghost predicate MergedFrom(ds: seq<Directory>, memorySize: int, r: Aggregate)
    requires r.Done?
  {
    exists counts: seq<nat>, ticks: seq<nat> :: Counted(ds, counts, ticks) && MergesTo(ds, memorySize, counts, ticks, r)
  }

  /** The checkpoint has a page counter, a tick if it has the section for it, and a number as every page address of a cpu
      section. */
  ghost predicate Sound(d: Directory) {
    && (exists v: nat :: CountsPages(d, v)) && (exists v: nat :: AtTick(d, v))
    && forall s :: s in d.sections && Within("cpu", s.name) && "paddr" in s.items ==> s.items["paddr"].Number?
  }

  /** All checkpoints are sound, and the last one has the section for the size of the memory. */
  ghost predicate Mergeable(ds: seq<Directory>) {
    && ds != [] && (exists s :: s in ds[|ds| - 1].sections && s.name == "system.physmem.store0")
    && forall d :: d in ds ==> Sound(d)
  }

  // ----- the counters -----

  lemma RecordsLast(sections: seq<Section>, name: string, key: string, v: nat)
    requires sections != []
    ensures var last, front := sections[|sections| - 1], sections[..|sections| - 1];
            Records(sections, name, key, v)
            <==> if last.name == name then key in last.items && last.items[key] == Number(v) else Records(front, name, key, v)
  {
    var n := |sections| - 1;
    var last, front := sections[n], sections[..n];
    if last.name == name {
      assert LastNamed(sections, name, n);
      forall k: nat | LastNamed(sections, name, k)
        ensures k == n
      {
        assert sections[n].name == name;
      }
    } else {
      forall k: nat
        ensures LastNamed(sections, name, k) <==> LastNamed(front, name, k)
      {
        assert k < n ==> front[k] == sections[k];
        assert forall j :: k < j < n ==> front[j] == sections[j];
      }
      assert forall k: nat :: LastNamed(front, name, k) ==> front[k] == sections[k];
    }
  }

  lemma {:induction false} PageCountMeans(sections: seq<Section>, v: nat)
    ensures PageCount(sections) == Some(v) <==> Records(sections, "system", "pagePtr", v)
  {
    if sections != [] {
      RecordsLast(sections, "system", "pagePtr", v);
      PageCountMeans(sections[..|sections| - 1], v);
    }
  }

  lemma {:induction false} TickMeans(sections: seq<Section>, v: nat)
    ensures TickOf(sections) == Some(v)
       <==> if exists s :: s in sections && s.name == "Globals" then Records(sections, "Globals", "curTick", v) else v == 0
  {
    if sections != [] {
      var last, front := sections[|sections| - 1], sections[..|sections| - 1];
      RecordsLast(sections, "Globals", "curTick", v);
      TickMeans(front, v);
      assert sections == front + [last];
      assert (exists s :: s in sections && s.name == "Globals")
        <==> last.name == "Globals" || exists s :: s in front && s.name == "Globals";
    }
  }

  lemma {:induction false} HasCpuMeans(s: string)
    ensures HasCpu(s) <==> Within("cpu", s)
  {
    if s != [] {
      HasCpuMeans(s[1..]);
      WithinNext(s);
    } else {
      assert forall a: string, b: string :: |a + "cpu" + b| >= 3;
    }
  }

  lemma WithinNext(s: string)
    requires s != []
    ensures Within("cpu", s) <==> StartsCpu(s) || Within("cpu", s[1..])
  {
    if StartsCpu(s) {
      assert s == [] + "cpu" + s[3..];
    }
    if Within("cpu", s[1..]) {
      var a: string, b: string :| s[1..] == a + "cpu" + b;
      assert s == ([s[0]] + a) + "cpu" + b;
    }
    if a: string, b: string :| s == a + "cpu" + b {
      if a == [] {
        assert s == "cpu" + b;
      } else {
        assert s[1..] == a[1..] + "cpu" + b;
      }
    }
  }

  lemma MergeableMeans(ds: seq<Directory>)
    ensures Mergeable(ds) <==> Aggregable(ds)
  {
    forall d: Directory
      ensures Readable(d) <==> Sound(d)
    {
      ReadableMeans(d);
    }
    if Mergeable(ds) {
      forall j | 0 <= j < |ds|
        ensures Readable(ds[j])
      {
        assert ds[j] in ds;
      }
    }
  }

  lemma ReadableMeans(d: Directory)
    ensures Readable(d) <==> Sound(d)
  {
    forall v: nat
      ensures (PageCount(d.sections) == Some(v) <==> CountsPages(d, v)) && (TickOf(d.sections) == Some(v) <==> AtTick(d, v))
    {
      PageCountMeans(d.sections, v);
      TickMeans(d.sections, v);
    }
    assert PageCount(d.sections).Some? ==> CountsPages(d, PageCount(d.sections).value);
    assert TickOf(d.sections).Some? ==> AtTick(d, TickOf(d.sections).value);
    forall s | s in d.sections
      ensures HasCpu(s.name) <==> Within("cpu", s.name)
    {
      HasCpuMeans(s.name);
    }
  }

  ghost function CountsOf(cpts: seq<Cpt>): seq<nat> {
    seq(|cpts|, i requires 0 <= i < |cpts| => cpts[i].pagePtr)
  }

  ghost function TicksOf(cpts: seq<Cpt>): seq<nat> {
    seq(|cpts|, i requires 0 <= i < |cpts| => cpts[i].curTick)
  }

  lemma LoadedCounted(ds: seq<Directory>)
    requires ReadableTo(ds, |ds|)
    ensures Counted(ds, CountsOf(LoadedAll(ds)), TicksOf(LoadedAll(ds)))
  {
    var cpts := LoadedAll(ds);
    forall i | 0 <= i < |ds|
      ensures CountsPages(ds[i], CountsOf(cpts)[i]) && AtTick(ds[i], TicksOf(cpts)[i])
    {
      assert Readable(ds[i]);
      PageCountMeans(ds[i].sections, cpts[i].pagePtr);
      TickMeans(ds[i].sections, cpts[i].curTick);
    }
  }

  lemma {:induction false} TotalIsPages(cpts: seq<Cpt>, k: nat)
    requires k <= |cpts|
    ensures Total(CountsOf(cpts), k) == Pages(cpts, k)
  {
    if k > 0 {
      TotalIsPages(cpts, k - 1);
    }
  }

  lemma {:induction false} TicksLargest(cpts: seq<Cpt>, k: nat)
    requires k <= |cpts|
    ensures forall j :: 0 <= j < k ==> cpts[j].curTick <= Ticks(cpts, k)
    ensures k > 0 ==> exists j :: 0 <= j < k && cpts[j].curTick == Ticks(cpts, k)
  {
    if k > 0 {
      TicksLargest(cpts, k - 1);
    }
  }

  lemma LargestTick(cpts: seq<Cpt>)
    requires cpts != []
    ensures Largest(TicksOf(cpts), Ticks(cpts, |cpts|))
  {
    TicksLargest(cpts, |cpts|);
    var ticks := TicksOf(cpts);
    var j :| 0 <= j < |cpts| && cpts[j].curTick == Ticks(cpts, |cpts|);
    assert ticks[j] in ticks;
  }

  // ----- the names -----

  ghost function Pieces(s: string): (r: seq<string>)
    ensures r != [] && r[0] <= s
  {
    if s == [] then [""]
    else if StartsCpu(s) then [""] + Pieces(s[3..])
    else
      var rest := Pieces(s[1..]);
      [[s[0]] + rest[0]] + rest[1..]
  }

  /** Renaming puts the tag behind every separator. */
  lemma {:induction false} RenameBetween(s: string, tag: string)
    ensures Between(Pieces(s), "cpu" + tag) == Rename(s, tag)
  {
    if s != [] {
      if StartsCpu(s) {
        RenameBetween(s[3..], tag);
        BetweenNext(Pieces(s[3..]), "cpu" + tag);
      } else {
        RenameBetween(s[1..], tag);
        BetweenCons(s[0], Pieces(s[1..]), "cpu" + tag);
      }
    }
  }

  lemma BetweenNext(pieces: seq<string>, separator: string)
    requires pieces != []
    ensures Between([""] + pieces, separator) == separator + Between(pieces, separator)
  {
    assert ([""] + pieces)[1..] == pieces;
  }

  lemma BetweenCons(c: char, pieces: seq<string>, separator: string)
    requires pieces != []
    ensures Between([[c] + pieces[0]] + pieces[1..], separator) == [c] + Between(pieces, separator)
  {
    var all := [[c] + pieces[0]] + pieces[1..];
    assert all[1..] == pieces[1..];
  }

  lemma {:induction false} PiecesBack(s: string)
    ensures Rename(s, "") == s
  {
    if s != [] {
      if StartsCpu(s) {
        PiecesBack(s[3..]);
        assert s == CPU + "" + s[3..];
      } else {
        PiecesBack(s[1..]);
      }
    }
  }

  lemma {:induction false} PiecesClean(s: string, p: string)
    requires p in Pieces(s)
    ensures !HasCpu(p)
  {
    if s != [] {
      if StartsCpu(s) {
        if p != "" {
          PiecesClean(s[3..], p);
        }
      } else {
        var rest := Pieces(s[1..]);
        PiecesClean(s[1..], rest[0]);
        if p == [s[0]] + rest[0] {
          assert p[1..] == rest[0];
        } else {
          PiecesClean(s[1..], p);
        }
      }
    }
  }

  lemma RenameMeans(name: string, i: nat, n: nat)
    requires i < n
    ensures RenamedTo(name, i, n, Rename(name, IndexTag(i, n)))
  {
    var tag, pieces := IndexTag(i, n), Pieces(name);
    RenameBetween(name, tag);
    RenameBetween(name, "");
    PiecesBack(name);
    assert "cpu" + "" == "cpu";
    forall p | p in pieces
      ensures !Within("cpu", p)
    {
      PiecesClean(name, p);
      HasCpuMeans(p);
    }
    assert Tagged(name, pieces, tag, Rename(name, tag));
    IndexTagExact(i, n);
    NumeralMeans(tag, i);
    DecimalNumeral(n - 1);
  }

  lemma FdMapMeans(name: string)
    ensures FdMap(name) <==> IsFdMap(name)
  {
    if front: string, c: char :| name == front + "workload" + [c] + "FdMap256" {
      assert name[|name| - 8..] == "FdMap256";
      assert name[|name| - 17..|name| - 9] == "workload";
    }
    if IsFdMap(name) {
      var k := |name| - 17;
      assert name == name[..k] + name[k..k + 8] + [name[k + 8]] + name[k + 9..];
    }
  }

  lemma MovedMeans(s: Section, i: nat, n: nat, base: nat)
    requires i < n && HasCpu(s.name) && !Malformed(s)
    ensures MovedTo(s, Moved(s, i, n, base), i, n, base)
  {
    RenameMeans(s.name, i, n);
    FdMapMeans(s.name);
  }

  // ----- where each section comes from -----

  /** The rule of the loop over the sections. */
  ghost predicate Goes(name: string, i: nat, n: nat) {
    HasCpu(name) || (name != "system" && name != "Globals" && i == n - 1)
  }

  ghost function PartOrigins(sections: seq<Section>, i: nat, n: nat): seq<Origin> {
    if sections == [] then []
    else
      var k := |sections| - 1;
      PartOrigins(sections[..k], i, n) + if Goes(sections[k].name, i, n) then [Origin(i, k)] else []
  }

  ghost predicate Gives(sections: seq<Section>, i: nat, n: nat, base: nat, o: Origin, t: Section)
    requires i < n
  {
    && o.cpt == i && o.sec < |sections|
    && var s := sections[o.sec];
       Goes(s.name, i, n) && t == if HasCpu(s.name) then Moved(s, i, n, base) else s
  }

  ghost predicate AllGive(sections: seq<Section>, i: nat, n: nat, base: nat, from: seq<Origin>, part: seq<Section>)
    requires i < n
  {
    |part| == |from| && forall m :: 0 <= m < |from| ==> Gives(sections, i, n, base, from[m], part[m])
  }

  lemma GiveMore(sections: seq<Section>, i: nat, n: nat, base: nat, from: seq<Origin>, part: seq<Section>)
    requires i < n && sections != [] && AllGive(sections[..|sections| - 1], i, n, base, from, part)
    ensures AllGive(sections, i, n, base, from, part)
  {
    forall m | 0 <= m < |from|
      ensures Gives(sections, i, n, base, from[m], part[m])
    {
      assert Gives(sections[..|sections| - 1], i, n, base, from[m], part[m]);
    }
  }

  lemma {:induction false} PartTraced(sections: seq<Section>, i: nat, n: nat, base: nat)
    requires i < n
    ensures AllGive(sections, i, n, base, PartOrigins(sections, i, n), Part(sections, i, n, base))
  {
    if sections != [] {
      var k := |sections| - 1;
      var front, part := PartOrigins(sections[..k], i, n), Part(sections[..k], i, n, base);
      PartTraced(sections[..k], i, n, base);
      GiveMore(sections, i, n, base, front, part);
      if Goes(sections[k].name, i, n) {
        var t := if HasCpu(sections[k].name) then Moved(sections[k], i, n, base) else sections[k];
        GiveOne(sections, i, n, base, front, part, Origin(i, k), t);
      }
    }
  }

  lemma GiveOne(
    sections: seq<Section>, i: nat, n: nat, base: nat, from: seq<Origin>, part: seq<Section>, o: Origin, t: Section)
    requires i < n && AllGive(sections, i, n, base, from, part) && Gives(sections, i, n, base, o, t)
    ensures AllGive(sections, i, n, base, from + [o], part + [t])
  {
  }

  lemma {:induction false} PartOriginsOrdered(sections: seq<Section>, i: nat, n: nat)
    ensures InOrder(PartOrigins(sections, i, n))
  {
    if sections != [] {
      var k := |sections| - 1;
      var front := PartOrigins(sections[..k], i, n);
      PartOriginsOrdered(sections[..k], i, n);
      forall m | 0 <= m < |front|
        ensures front[m].cpt == i && front[m].sec < k
      {
        assert front[m] in front;
        PartOriginsExact(sections[..k], i, n, front[m]);
      }
    }
  }

  lemma {:induction false} PartOriginsExact(sections: seq<Section>, i: nat, n: nat, o: Origin)
    ensures o in PartOrigins(sections, i, n)
       <==> o.cpt == i && o.sec < |sections| && Goes(sections[o.sec].name, i, n)
  {
    if sections != [] {
      PartOriginsExact(sections[..|sections| - 1], i, n, o);
    }
  }

  ghost function Origins(cpts: seq<Cpt>, k: nat): seq<Origin>
    requires k <= |cpts|
  {
    if k == 0 then [] else Origins(cpts, k - 1) + PartOrigins(cpts[k - 1].sections, k - 1, |cpts|)
  }

  ghost predicate GoesAt(cpts: seq<Cpt>, o: Origin) {
    o.cpt < |cpts| && o.sec < |cpts[o.cpt].sections| && Goes(cpts[o.cpt].sections[o.sec].name, o.cpt, |cpts|)
  }

  lemma {:induction false} OriginsExact(cpts: seq<Cpt>, k: nat, o: Origin)
    requires k <= |cpts|
    ensures o in Origins(cpts, k) <==> o.cpt < k && GoesAt(cpts, o)
  {
    if k > 0 {
      OriginsExact(cpts, k - 1, o);
      PartOriginsAt(cpts, k - 1, o);
    }
  }

  lemma PartOriginsAt(cpts: seq<Cpt>, i: nat, o: Origin)
    requires i < |cpts|
    ensures o in PartOrigins(cpts[i].sections, i, |cpts|) <==> o.cpt == i && GoesAt(cpts, o)
  {
    PartOriginsExact(cpts[i].sections, i, |cpts|, o);
  }

  ghost predicate CptGives(cpts: seq<Cpt>, o: Origin, t: Section) {
    o.cpt < |cpts| && Gives(cpts[o.cpt].sections, o.cpt, |cpts|, Base(cpts, o.cpt), o, t)
  }

  ghost predicate CptsGive(cpts: seq<Cpt>, from: seq<Origin>, sections: seq<Section>) {
    |sections| == |from| && forall m :: 0 <= m < |from| ==> CptGives(cpts, from[m], sections[m])
  }

  lemma InOrderAppend(a: seq<Origin>, b: seq<Origin>, k: nat)
    requires InOrder(a) && InOrder(b) && (forall o :: o in a ==> o.cpt < k) && (forall o :: o in b ==> o.cpt == k)
    ensures InOrder(a + b)
  {
    var all := a + b;
    forall x, y | 0 <= x < y < |all|
      ensures all[x].cpt < all[y].cpt || (all[x].cpt == all[y].cpt && all[x].sec < all[y].sec)
    {
      if x < |a| <= y {
        assert all[x] in a && all[y] in b;
      }
    }
  }

  lemma {:induction false} ConfigsTraced(cpts: seq<Cpt>, k: nat)
    requires k <= |cpts|
    ensures CptsGive(cpts, Origins(cpts, k), Configs(cpts, k)) && InOrder(Origins(cpts, k))
  {
    if k > 0 {
      ConfigsTraced(cpts, k - 1);
      var i, n := k - 1, |cpts|;
      var front, last := Origins(cpts, i), PartOrigins(cpts[i].sections, i, n);
      PartTraced(cpts[i].sections, i, n, Base(cpts, i));
      PartOriginsOrdered(cpts[i].sections, i, n);
      forall o
        ensures o in front ==> o.cpt < i
        ensures o in last ==> o.cpt == i
      {
        OriginsExact(cpts, i, o);
        PartOriginsExact(cpts[i].sections, i, n, o);
      }
      InOrderAppend(front, last, i);
      LastGive(cpts, i, last, Part(cpts[i].sections, i, n, Base(cpts, i)));
      GiveAppend(cpts, front, Configs(cpts, i), last, Part(cpts[i].sections, i, n, Base(cpts, i)));
    }
  }

  lemma LastGive(cpts: seq<Cpt>, i: nat, from: seq<Origin>, part: seq<Section>)
    requires i < |cpts| && AllGive(cpts[i].sections, i, |cpts|, Base(cpts, i), from, part)
    ensures CptsGive(cpts, from, part)
  {
    forall m | 0 <= m < |from|
      ensures CptGives(cpts, from[m], part[m])
    {
      assert Gives(cpts[i].sections, i, |cpts|, Base(cpts, i), from[m], part[m]);
    }
  }

  lemma GiveAppend(cpts: seq<Cpt>, a: seq<Origin>, s: seq<Section>, b: seq<Origin>, t: seq<Section>)
    requires CptsGive(cpts, a, s) && CptsGive(cpts, b, t)
    ensures CptsGive(cpts, a + b, s + t)
  {
    forall m | 0 <= m < |a + b|
      ensures CptGives(cpts, (a + b)[m], (s + t)[m])
    {
      if m >= |a| {
        assert CptGives(cpts, b[m - |a|], t[m - |a|]);
      }
    }
  }

  lemma OriginsMean(ds: seq<Directory>, o: Origin)
    ensures o in Origins(LoadedAll(ds), |ds|) <==> KeptSection(ds, o)
  {
    OriginsExact(LoadedAll(ds), |ds|, o);
    if o.cpt < |ds| && o.sec < |ds[o.cpt].sections| {
      HasCpuMeans(ds[o.cpt].sections[o.sec].name);
    }
  }

  lemma OriginsKept(ds: seq<Directory>)
    ensures ExactlyKept(ds, Origins(LoadedAll(ds), |ds|))
  {
    forall o
      ensures o in Origins(LoadedAll(ds), |ds|) <==> KeptSection(ds, o)
    {
      OriginsMean(ds, o);
    }
  }

  /** With the memory's size recorded, the section is what the source's terms say. */
  lemma GivenComesFrom(ds: seq<Directory>, o: Origin, t: Section, size: nat)
    requires ReadableTo(ds, |ds|) && CptGives(LoadedAll(ds), o, t) && KeptSection(ds, o)
    ensures ComesFrom(ds, CountsOf(LoadedAll(ds)), size, o, WithRange([t], size)[0])
  {
    var cpts := LoadedAll(ds);
    var s := ds[o.cpt].sections[o.sec];
    assert Readable(ds[o.cpt]) && s in ds[o.cpt].sections;
    HasCpuMeans(s.name);
    TotalIsPages(cpts, o.cpt);
    if HasCpu(s.name) {
      MovedMeans(s, o.cpt, |ds|, Base(cpts, o.cpt));
      RenameKeepsCpu(s.name, IndexTag(o.cpt, |ds|));
      RangeKeepsCpu([t], size, t);
    }
  }

  lemma SectionAt(ds: seq<Directory>, from: seq<Origin>, config: seq<Section>, size: nat, m: nat)
    requires ReadableTo(ds, |ds|) && CptsGive(LoadedAll(ds), from, config)
    requires m < |from| && KeptSection(ds, from[m])
    ensures ComesFrom(ds, CountsOf(LoadedAll(ds)), size, from[m], WithRange(config, size)[m])
  {
    assert CptGives(LoadedAll(ds), from[m], config[m]);
    GivenComesFrom(ds, from[m], config[m], size);
    assert WithRange([config[m]], size)[0] == WithRange(config, size)[m];
  }

  lemma MergedSections(ds: seq<Directory>, size: nat)
    requires ReadableTo(ds, |ds|)
    ensures SectionsAre(ds, CountsOf(LoadedAll(ds)), size, WithRange(Configs(LoadedAll(ds), |ds|), size))
  {
    var cpts := LoadedAll(ds);
    ConfigsTraced(cpts, |ds|);
    OriginsKept(ds);
    TracedSections(ds, Origins(cpts, |ds|), Configs(cpts, |ds|), size);
  }

  lemma TracedSections(ds: seq<Directory>, from: seq<Origin>, config: seq<Section>, size: nat)
    requires ReadableTo(ds, |ds|) && CptsGive(LoadedAll(ds), from, config)
    requires InOrder(from) && ExactlyKept(ds, from)
    ensures SectionsAre(ds, CountsOf(LoadedAll(ds)), size, WithRange(config, size))
  {
    var counts := CountsOf(LoadedAll(ds));
    forall m: nat | m < |from|
      ensures from[m] in from && ComesFrom(ds, counts, size, from[m], WithRange(config, size)[m])
    {
      assert from[m] in from;
      SectionAt(ds, from, config, size, m);
    }
    assert SectionsFrom(ds, counts, size, from, WithRange(config, size));
  }

  // ----- the memory and its size -----

  lemma {:induction false} ReadIsMemories(ds: seq<Directory>, k: nat)
    requires k <= |ds|
    ensures BytesRead(ds, CountsOf(LoadedAll(ds)), k) == Memories(LoadedAll(ds), k)
  {
    if k > 0 {
      ReadIsMemories(ds, k - 1);
      assert ds[k - 1].memory[..|ds[k - 1].memory|] == ds[k - 1].memory;
    }
  }

  lemma SizeIsLeast(pages: nat, memorySize: int, size: nat)
    requires size == (pages + PadPages(pages, memorySize)) * PAGE
    ensures LeastSize(pages, memorySize, size)
  {
  }

  lemma RangeIsLeast(cpts: seq<Cpt>, memorySize: int)
    ensures LeastSize(Pages(cpts, |cpts|), memorySize, RangeSize(cpts, memorySize))
  {
    SizeIsLeast(Pages(cpts, |cpts|), memorySize, RangeSize(cpts, memorySize));
  }

  lemma PaddingIsZeros(k: nat)
    ensures Padding(k) == Zeros(k * 4096)
  {
  }

  lemma MergedFile(ds: seq<Directory>, size: nat)
    requires ds != [] && ReadableTo(ds, |ds|)
    ensures var cpts := LoadedAll(ds);
            FileIs(ds, CountsOf(cpts), TicksOf(cpts), size, MergedConfig(cpts, size))
  {
    var cpts := LoadedAll(ds);
    var config, front := MergedConfig(cpts, size), WithRange(Configs(cpts, |ds|), size);
    MergedSections(ds, size);
    assert config[..|config| - 2] == front;
    TotalIsPages(cpts, |ds|);
    LargestTick(cpts);
  }

  lemma PaddedIs(bytes: seq<byte>, pages: nat, more: nat, size: nat, memory: seq<byte>)
    requires size == (pages + more) * PAGE && memory == bytes + Padding(more)
    ensures PaddedTo(bytes, pages, size, memory)
  {
    PaddingIsZeros(more);
    assert size - pages * 4096 == more * 4096;
  }

  lemma MergedBytes(cpts: seq<Cpt>, memorySize: int)
    ensures PaddedTo(Memories(cpts, |cpts|), Pages(cpts, |cpts|), RangeSize(cpts, memorySize), MergedMemory(cpts, memorySize))
  {
    var pages := Pages(cpts, |cpts|);
    var more := PadPages(pages, memorySize);
    PaddedIs(Memories(cpts, |cpts|), pages, more, RangeSize(cpts, memorySize), MergedMemory(cpts, memorySize));
  }

  lemma MergeMeans(ds: seq<Directory>, memorySize: int, r: Aggregate)
    requires Aggregable(ds)
    requires var cpts := LoadedAll(ds);
             r == Done(MergedConfig(cpts, RangeSize(cpts, memorySize)), MergedMemory(cpts, memorySize),
                       Pages(cpts, |cpts|), RangeSize(cpts, memorySize))
    ensures MergedFrom(ds, memorySize, r)
  {
    LoadedCounted(ds);
    TotalIsPages(LoadedAll(ds), |ds|);
    ReadIsMemories(ds, |ds|);
    MergedBytes(LoadedAll(ds), memorySize);
    RangeIsLeast(LoadedAll(ds), memorySize);
    MergedFile(ds, r.rangeSize);
    AllParts(ds, memorySize, CountsOf(LoadedAll(ds)), TicksOf(LoadedAll(ds)), r);
  }

  lemma AllParts(ds: seq<Directory>, memorySize: int, counts: seq<nat>, ticks: seq<nat>, r: Aggregate)
    requires r.Done? && Counted(ds, counts, ticks)
    requires r.pagePtr == Total(counts, |ds|) && LeastSize(r.pagePtr, memorySize, r.rangeSize)
    requires FileIs(ds, counts, ticks, r.rangeSize, r.config)
    requires PaddedTo(BytesRead(ds, counts, |ds|), r.pagePtr, r.rangeSize, r.memory)
    ensures MergedFrom(ds, memorySize, r)
  {
    assert MergesTo(ds, memorySize, counts, ticks, r);
  }

  /** The main loop. */
  method AddAll(ds: seq<Directory>, ghost cpts: seq<Cpt>)
    returns (ok: bool, config: seq<Section>, memory: seq<byte>, pagePtr: nat, maxTick: nat)
    requires cpts == LoadedAll(ds)
    ensures ok <==> ReadableTo(ds, |ds|)
    ensures ok ==> Written(cpts, |ds|, config, memory, pagePtr, maxTick)
  {
    ok, config, memory, pagePtr, maxTick := true, [], [], 0, 0;
    for i := 0 to |ds|
      invariant ok && ReadableTo(ds, i) && Written(cpts, i, config, memory, pagePtr, maxTick)
    {
      ok, config, memory, pagePtr, maxTick := AddCheckpoint(ds[i], cpts, i, |ds|, config, memory, pagePtr, maxTick);
      if !ok {
        return;
      }
    }
  }

  /** `aggregate`: `memorySize` of 0 or less stands for no requested size. */
  method AggregateAll(ds: seq<Directory>, memorySize: int) returns (r: Aggregate)
    ensures r.Done? <==> Mergeable(ds)
    ensures r.Done? ==> MergedFrom(ds, memorySize, r)
    ensures r.Done? <==> Aggregable(ds)
    ensures r.Done? ==>
              var cpts := LoadedAll(ds);
              r == Done(MergedConfig(cpts, RangeSize(cpts, memorySize)), MergedMemory(cpts, memorySize),
                        Pages(cpts, |cpts|), RangeSize(cpts, memorySize))
  {
    MergeableMeans(ds);
    if ds == [] {
      return Failed;
    }
    ghost var cpts := LoadedAll(ds);
    var ok, config, memory, pagePtr, maxTick := AddAll(ds, cpts);
    if !ok || forall s :: s in ds[|ds| - 1].sections ==> s.name != STORE {
      return Failed;
    }
    r := Conclude(cpts, |ds|, config, memory, pagePtr, maxTick, memorySize);
    MergeMeans(ds, memorySize, r);
  }
}
