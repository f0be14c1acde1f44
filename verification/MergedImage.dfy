/** Two checkpoints in one image: the second one's physical addresses are moved up by a base, and each program
    keeps its own page table. */
module MergedImage {
  import opened Basics
  import opened PhysicalImage
  import opened MemoryLayout
  import opened CheckpointImage

  const BASE_B: nat := 2 * 1024 * 1024 * 1024

  function Moved(m: Mapping, base: nat): Mapping {
    m.(paddr := m.paddr + base)
  }

  function Relocated(ms: seq<Mapping>, base: nat): seq<Mapping> {
    seq(|ms|, i requires 0 <= i < |ms| => Moved(ms[i], base))
  }

  /** A loaded checkpoint: the items of its mapping dictionary, updated in place. */
  class CheckpointHandle {
    var mappings: seq<Mapping>

    constructor (loaded: seq<Mapping>, base: nat)
      ensures mappings == Relocated(loaded, base)
    {
      mappings := loaded;
      new;
      if base != 0 {
        for i := 0 to |loaded|
          invariant |mappings| == |loaded|
          invariant forall k :: 0 <= k < i ==> mappings[k] == Moved(loaded[k], base)
          invariant forall k :: i <= k < |loaded| ==> mappings[k] == loaded[k]
        {
          mappings := mappings[i := Moved(mappings[i], base)];
        }
      }
    }

    /** `_create_mappings(expand=True)`. */
    method TemplateMappings() returns (pages: map<nat, Mapping>)
      ensures pages == PagesOf(mappings)
    {
      pages := map[];
      assert mappings[..0] == [];
      for i := 0 to |mappings|
        invariant pages == PagesOf(mappings[..i])
      {
        assert mappings[..i + 1][..i] == mappings[..i];
        pages := ExpandPages(pages, mappings[i]);
      }
      assert mappings[..|mappings|] == mappings;
    }

    /** The dictionary itself, keyed by virtual address. */
    method DictMappings() returns (table: map<nat, Mapping>)
      ensures table == TableOf(mappings)
    {
      table := map[];
      assert mappings[..0] == [];
      for i := 0 to |mappings|
        invariant table == TableOf(mappings[..i])
      {
        assert mappings[..i + 1][..i] == mappings[..i];
        table := table[mappings[i].vaddr := mappings[i]];
      }
      assert mappings[..|mappings|] == mappings;
    }
  }

  function JournalOf(ms: seq<Mapping>, files: Files, segs: seq<Segment>): seq<Write> {
    Journal(ms, TableOf(ms), files, segs)
  }

  function ImageOf(ms: seq<Mapping>, files: Files, segs: seq<Segment>, size: nat): seq<byte> {
    Replay(Zeros(size), JournalOf(ms, files, segs))
  }

  /** The image after the first checkpoint's writes and then the second's. */
  function MergedOf(a: seq<Mapping>, b: seq<Mapping>, files: Files, segsA: seq<Segment>, segsB: seq<Segment>, size: nat)
    : seq<byte>
  {
    Replay(Zeros(size), JournalOf(a, files, segsA) + JournalOf(b, files, segsB))
  }

  /** `CheckpointMerger._create_pmem_file`. */
  method Merge(a: CheckpointHandle, b: CheckpointHandle, files: Files, segsA: seq<Segment>, segsB: seq<Segment>)
    returns (ok: bool, image: seq<byte>)
    ensures ok <==> (forall s :: s in segsA || s in segsB ==> Loadable(s))
    ensures ok ==> image == MergedOf(a.mappings, b.mappings, files, segsA, segsB, MEM_SIZE)
  {
    var pmem := new PmemFile();
    pmem.Truncate(MEM_SIZE);
    assert pmem.data == Zeros(MEM_SIZE);
    image := [];
    var tableA := a.DictMappings();
    ok := WriteImage(pmem, a.mappings, tableA, files, segsA);
    if ok {
      var tableB := b.DictMappings();
      ok := WriteImage(pmem, b.mappings, tableB, files, segsB);
      ReplayAppend(Zeros(MEM_SIZE), JournalOf(a.mappings, files, segsA), JournalOf(b.mappings, files, segsB));
      image := pmem.data;
    }
  }

  // ----- relocation moves the whole journal -----

  lemma {:induction false} RelocatedTable(ms: seq<Mapping>, base: nat)
    ensures TableOf(Relocated(ms, base)).Keys == TableOf(ms).Keys
    ensures forall v :: v in TableOf(ms) ==> TableOf(Relocated(ms, base))[v] == Moved(TableOf(ms)[v], base)
  {
    if ms != [] {
      var front := ms[..|ms| - 1];
      assert Relocated(ms, base)[..|ms| - 1] == Relocated(front, base);
      RelocatedTable(front, base);
    }
  }

  lemma {:induction false} RelocatedFile(m: Mapping, files: Files, segs: seq<Segment>, base: nat)
    requires FileBacked(m, files)
    ensures WritesOfFile(Moved(m, base), files, segs) == Shifted(WritesOfFile(m, files, segs), base)
  {
    if segs != [] {
      RelocatedFile(m, files, segs[..|segs| - 1], base);
    }
  }

  lemma {:induction false} RelocatedFiles(ms: seq<Mapping>, files: Files, segs: seq<Segment>, base: nat)
    ensures FileWrites(Relocated(ms, base), files, segs) == Shifted(FileWrites(ms, files, segs), base)
  {
    if ms != [] {
      var front, m := ms[..|ms| - 1], ms[|ms| - 1];
      assert Relocated(ms, base)[..|ms| - 1] == Relocated(front, base);
      RelocatedFiles(front, files, segs, base);
      if FileBacked(m, files) {
        RelocatedFile(m, files, segs, base);
      }
    }
  }

  lemma {:induction false} RelocatedSegments(ms: seq<Mapping>, segs: seq<Segment>, base: nat)
    ensures SegmentWrites(TableOf(Relocated(ms, base)), segs) == Shifted(SegmentWrites(TableOf(ms), segs), base)
  {
    RelocatedTable(ms, base);
    if segs != [] {
      RelocatedSegments(ms, segs[..|segs| - 1], base);
    }
  }

  lemma RelocatedJournal(ms: seq<Mapping>, files: Files, segs: seq<Segment>, base: nat)
    ensures JournalOf(Relocated(ms, base), files, segs) == Shifted(JournalOf(ms, files, segs), base)
  {
    RelocatedFiles(ms, files, segs, base);
    RelocatedSegments(ms, segs, base);
  }

  // ----- isolation -----

  /** A checkpoint as the GDB engine leaves it, with segments that fit their mappings. */
  ghost predicate Laid(ms: seq<Mapping>, segs: seq<Segment>) {
    Separate(ms) && AllAligned(ms) && Lists(ms, TableOf(ms)) && SegmentsFit(TableOf(ms), segs)
  }

  /** What the GDB engine lists for a process is laid out that way. */
  lemma ProcessIsLaid(process: seq<Region>, filter: bool, segs: seq<Segment>)
    requires WellFormed(WithNull(process))
    requires SegmentsFit(TableOf(Kept(WithNull(process), filter)), segs)
    ensures Laid(Kept(WithNull(process), filter), segs)
  {
    KeptFacts(process, filter);
  }

  /** No physical byte belongs to both. */
  ghost predicate PhysicallyApart(a: seq<Mapping>, b: seq<Mapping>) {
    forall m, n :: m in a && n in b ==> Apart(m.paddr, m.size, n.paddr, n.size)
  }

  lemma MovedIn(ms: seq<Mapping>, base: nat, m: Mapping)
    requires m in ms
    ensures Moved(m, base) in Relocated(ms, base)
  {
    var i :| 0 <= i < |ms| && ms[i] == m;
    assert Relocated(ms, base)[i] == Moved(m, base);
  }

  lemma MovedFrom(ms: seq<Mapping>, base: nat, m: Mapping) returns (m0: Mapping)
    requires m in Relocated(ms, base)
    ensures m0 in ms && m == Moved(m0, base)
  {
    var i :| 0 <= i < |ms| && Relocated(ms, base)[i] == m;
    m0 := ms[i];
  }

  lemma RelocatedSeparate(ms: seq<Mapping>, base: nat)
    requires Separate(ms)
    ensures Separate(Relocated(ms, base))
  {
    forall m, n | m in Relocated(ms, base) && n in Relocated(ms, base)
      ensures PairApart(m, n)
    {
      var m0 := MovedFrom(ms, base, m);
      var n0 := MovedFrom(ms, base, n);
      assert PairApart(m0, n0);
    }
  }

  lemma RelocatedAligned(ms: seq<Mapping>, base: nat)
    requires AllAligned(ms)
    ensures AllAligned(Relocated(ms, base))
  {
    forall m | m in Relocated(ms, base)
      ensures Aligned(m)
    {
      var m0 := MovedFrom(ms, base, m);
      assert Aligned(m0);
    }
  }

  lemma RelocatedListed(ms: seq<Mapping>, base: nat)
    requires Lists(ms, TableOf(ms))
    ensures Lists(Relocated(ms, base), TableOf(Relocated(ms, base)))
  {
    RelocatedTable(ms, base);
    var moved := Relocated(ms, base);
    forall m | m in moved
      ensures m.vaddr in TableOf(moved) && TableOf(moved)[m.vaddr] == m
    {
      var m0 := MovedFrom(ms, base, m);
    }
    forall v | v in TableOf(moved)
      ensures TableOf(moved)[v] in moved && TableOf(moved)[v].vaddr == v
    {
      MovedIn(ms, base, TableOf(ms)[v]);
    }
  }

  lemma RelocatedIsLaid(ms: seq<Mapping>, segs: seq<Segment>, base: nat)
    requires Laid(ms, segs)
    ensures Laid(Relocated(ms, base), segs)
  {
    RelocatedSeparate(ms, base);
    RelocatedAligned(ms, base);
    RelocatedListed(ms, base);
    RelocatedTable(ms, base);
  }

  /** Writes of the other checkpoint leave a checkpoint's own bytes alone. */
  lemma ForeignWrites(other: seq<Mapping>, files: Files, segs: seq<Segment>, a: nat, x: byte)
    requires forall n :: n in other ==> !(n.paddr <= a < n.paddr + n.size)
    requires Lists(other, TableOf(other)) && SegmentsFit(TableOf(other), segs)
    ensures Effect(JournalOf(other, files, segs), a, x) == x
  {
    var journal := JournalOf(other, files, segs);
    forall w | w in journal
      ensures !Covers(w, a)
    {
      JournalComesFrom(other, TableOf(other), files, segs, w);
    }
    EffectUncovered(journal, a, x);
  }

  lemma FirstKeepsByte(
    a: seq<Mapping>, b: seq<Mapping>, files: Files, segsA: seq<Segment>, segsB: seq<Segment>, size: nat, pa: nat)
    requires forall n :: n in b ==> !(n.paddr <= pa < n.paddr + n.size)
    requires Lists(b, TableOf(b)) && SegmentsFit(TableOf(b), segsB)
    ensures ByteAt(MergedOf(a, b, files, segsA, segsB, size), pa) == ByteAt(ImageOf(a, files, segsA, size), pa)
  {
    var ja, jb := JournalOf(a, files, segsA), JournalOf(b, files, segsB);
    ReplayByte(Zeros(size), ja + jb, pa);
    ReplayByte(Zeros(size), ja, pa);
    EffectAppend(ja, jb, pa, 0);
    ForeignWrites(b, files, segsB, pa, Effect(ja, pa, 0));
  }

  lemma SecondKeepsByte(
    a: seq<Mapping>, b: seq<Mapping>, files: Files, segsA: seq<Segment>, segsB: seq<Segment>, size: nat, pa: nat)
    requires forall m :: m in a ==> !(m.paddr <= pa < m.paddr + m.size)
    requires Lists(a, TableOf(a)) && SegmentsFit(TableOf(a), segsA)
    ensures ByteAt(MergedOf(a, b, files, segsA, segsB, size), pa) == ByteAt(ImageOf(b, files, segsB, size), pa)
  {
    var ja, jb := JournalOf(a, files, segsA), JournalOf(b, files, segsB);
    ReplayByte(Zeros(size), ja + jb, pa);
    ReplayByte(Zeros(size), jb, pa);
    EffectAppend(ja, jb, pa, 0);
    ForeignWrites(a, files, segsA, pa, 0);
  }

  ghost predicate AgreeOn(m: Mapping, x: seq<byte>, y: seq<byte>) {
    forall a: nat :: m.paddr <= a < m.paddr + m.size ==> ByteAt(x, a) == ByteAt(y, a)
  }

  /** Images that agree on a checkpoint's bytes give it the same reads. */
  lemma SameBytesSameReads(ms: seq<Mapping>, x: seq<byte>, y: seq<byte>, va: nat)
    requires Separate(ms) && AllAligned(ms)
    requires forall m :: m in ms ==> AgreeOn(m, x, y)
    ensures ReadVirtual(PagesOf(ms), x, va) == ReadVirtual(PagesOf(ms), y, va)
  {
    if m :| m in ms && m.vaddr <= va < m.vaddr + m.size {
      PagesTranslate(ms, m, va);
      assert AgreeOn(m, x, y);
    } else {
      PagesUnmapped(ms, va);
    }
  }

  /** When the two layouts share no physical byte, each checkpoint reads every address of its own, through its
      own page table, as it would from an image that holds it alone. */
  lemma MergeIsolation(
    a: seq<Mapping>, b: seq<Mapping>, files: Files, segsA: seq<Segment>, segsB: seq<Segment>, size: nat, va: nat)
    requires Laid(a, segsA) && Laid(b, segsB) && PhysicallyApart(a, b)
    ensures ReadVirtual(PagesOf(a), MergedOf(a, b, files, segsA, segsB, size), va)
         == ReadVirtual(PagesOf(a), ImageOf(a, files, segsA, size), va)
    ensures ReadVirtual(PagesOf(b), MergedOf(a, b, files, segsA, segsB, size), va)
         == ReadVirtual(PagesOf(b), ImageOf(b, files, segsB, size), va)
  {
    var merged := MergedOf(a, b, files, segsA, segsB, size);
    forall m, pa: nat | m in a && m.paddr <= pa < m.paddr + m.size
      ensures ByteAt(merged, pa) == ByteAt(ImageOf(a, files, segsA, size), pa)
    {
      FirstKeepsByte(a, b, files, segsA, segsB, size, pa);
    }
    forall m, pa: nat | m in b && m.paddr <= pa < m.paddr + m.size
      ensures ByteAt(merged, pa) == ByteAt(ImageOf(b, files, segsB, size), pa)
    {
      SecondKeepsByte(a, b, files, segsA, segsB, size, pa);
    }
    SameBytesSameReads(a, merged, ImageOf(a, files, segsA, size), va);
    SameBytesSameReads(b, merged, ImageOf(b, files, segsB, size), va);
  }

  lemma RelocatedByte(ms: seq<Mapping>, files: Files, segs: seq<Segment>, base: nat, size: nat, pa: nat)
    ensures ByteAt(ImageOf(Relocated(ms, base), files, segs, size), base + pa) == ByteAt(ImageOf(ms, files, segs, size), pa)
  {
    RelocatedJournal(ms, files, segs, base);
    ReplayByte(Zeros(size), JournalOf(ms, files, segs), pa);
    ReplayByte(Zeros(size), JournalOf(Relocated(ms, base), files, segs), base + pa);
    EffectShifted(JournalOf(ms, files, segs), base, pa, 0);
  }

  /** A relocated checkpoint reads from its own image what the unmoved one reads from its own. */
  lemma RelocationInvisible(ms: seq<Mapping>, files: Files, segs: seq<Segment>, base: nat, size: nat, va: nat)
    requires Separate(ms) && AllAligned(ms)
    ensures ReadVirtual(PagesOf(Relocated(ms, base)), ImageOf(Relocated(ms, base), files, segs, size), va)
         == ReadVirtual(PagesOf(ms), ImageOf(ms, files, segs, size), va)
  {
    RelocatedSeparate(ms, base);
    RelocatedAligned(ms, base);
    if m :| m in ms && m.vaddr <= va < m.vaddr + m.size {
      MovedIn(ms, base, m);
      PagesTranslate(ms, m, va);
      PagesTranslate(Relocated(ms, base), Moved(m, base), va);
      RelocatedByte(ms, files, segs, base, size, m.paddr + (va - m.vaddr));
    } else {
      PagesUnmapped(ms, va);
      forall m | m in Relocated(ms, base)
        ensures !(m.vaddr <= va < m.vaddr + m.size)
      {
        var m0 := MovedFrom(ms, base, m);
      }
      PagesUnmapped(Relocated(ms, base), va);
    }
  }

  ghost predicate Below(ms: seq<Mapping>, limit: nat) {
    forall m :: m in ms ==> m.paddr + m.size <= limit
  }

  lemma JournalBelow(ms: seq<Mapping>, files: Files, segs: seq<Segment>, limit: nat, w: Write)
    requires Laid(ms, segs) && Below(ms, limit) && w in JournalOf(ms, files, segs)
    ensures w.pos + |w.buf| <= limit
  {
    JournalComesFrom(ms, TableOf(ms), files, segs, w);
  }

  /** Two layouts below 2 GiB leave the merged image exactly as long as the memory. */
  lemma MergedSize(a: seq<Mapping>, b: seq<Mapping>, files: Files, segsA: seq<Segment>, segsB: seq<Segment>)
    requires Laid(a, segsA) && Laid(b, segsB)
    ensures Below(a, BASE_B) && Below(b, BASE_B) ==>
              |MergedOf(a, Relocated(b, BASE_B), files, segsA, segsB, MEM_SIZE)| == MEM_SIZE
  {
    if Below(a, BASE_B) && Below(b, BASE_B) {
      var moved := Relocated(b, BASE_B);
      RelocatedIsLaid(b, segsB, BASE_B);
      assert Below(moved, MEM_SIZE) by {
        forall n | n in moved
          ensures n.paddr + n.size <= MEM_SIZE
        {
          var n0 := MovedFrom(b, BASE_B, n);
        }
      }
      var first, second := JournalOf(a, files, segsA), JournalOf(moved, files, segsB);
      forall w: Write | w in first + second
        ensures w.pos + |w.buf| <= MEM_SIZE
      {
        if w in first {
          JournalBelow(a, files, segsA, BASE_B, w);
        } else {
          JournalBelow(moved, files, segsB, MEM_SIZE, w);
        }
      }
      ReplayKeepsSize(Zeros(MEM_SIZE), first + second);
    }
  }

  /** The merge at the fixed base: as soon as the first checkpoint's layout fits below 2 GiB, both programs read
      from the merged image exactly what they would read from their separate conversions. */
  lemma MergeAtTwoGiB(
    a: seq<Mapping>, b: seq<Mapping>, files: Files, segsA: seq<Segment>, segsB: seq<Segment>, va: nat)
    requires Laid(a, segsA) && Laid(b, segsB)
    requires Below(a, BASE_B)
    ensures var merged := MergedOf(a, Relocated(b, BASE_B), files, segsA, segsB, MEM_SIZE);
            && ReadVirtual(PagesOf(a), merged, va) == ReadVirtual(PagesOf(a), ImageOf(a, files, segsA, MEM_SIZE), va)
            && ReadVirtual(PagesOf(Relocated(b, BASE_B)), merged, va)
            == ReadVirtual(PagesOf(b), ImageOf(b, files, segsB, MEM_SIZE), va)
  {
    RelocatedIsLaid(b, segsB, BASE_B);
    forall m, n | m in a && n in Relocated(b, BASE_B)
      ensures Apart(m.paddr, m.size, n.paddr, n.size)
    {
      var n0 := MovedFrom(b, BASE_B, n);
    }
    MergeIsolation(a, Relocated(b, BASE_B), files, segsA, segsB, MEM_SIZE, va);
    RelocationInvisible(b, files, segsB, BASE_B, MEM_SIZE, va);
  }

  /** The assertions of `_fill_cpt_template`: each checkpoint has one stack. */
  method OneStackEach(a: CheckpointHandle, b: CheckpointHandle) returns (ok: bool)
    ensures ok <==> OneStack(TableOf(a.mappings)) && OneStack(TableOf(b.mappings))
  {
    var tableA := a.DictMappings();
    var tableB := b.DictMappings();
    ok := FindStack(tableA);
    if ok {
      ok := FindStack(tableB);
    }
  }

  /** Relocation does not change the names. */
  lemma RelocatedStack(ms: seq<Mapping>, base: nat)
    ensures OneStack(TableOf(Relocated(ms, base))) <==> OneStack(TableOf(ms))
  {
    RelocatedTable(ms, base);
    var before, after := TableOf(ms), TableOf(Relocated(ms, base));
    assert forall v :: v in before <==> v in after;
    assert forall v :: v in before ==> after[v].name == before[v].name;
    if OneStack(before) {
      var v :| v in before && IsStack(before[v].name) && forall u :: u in before && IsStack(before[u].name) ==> u == v;
      assert v in after && IsStack(after[v].name);
    }
  }

  /** Exactly one entry has a name with the word stack in it. */
  ghost predicate OneStackIn(ms: seq<Mapping>) {
    exists m :: m in ms && Within("stack", m.name) && forall n :: n in ms && Within("stack", n.name) ==> n == m
  }

  lemma StackListed(ms: seq<Mapping>)
    requires Lists(ms, TableOf(ms))
    ensures OneStack(TableOf(ms)) <==> OneStackIn(ms)
  {
    var table := TableOf(ms);
    forall m | m in ms
      ensures IsStack(m.name) <==> Within("stack", m.name)
    {
      IsStackMeans(m.name);
    }
    if OneStack(table) {
      var v :| v in table && IsStack(table[v].name) && forall u :: u in table && IsStack(table[u].name) ==> u == v;
      assert table[v] in ms;
    }
    if OneStackIn(ms) {
      var m :| m in ms && Within("stack", m.name) && forall n :: n in ms && Within("stack", n.name) ==> n == m;
      assert m.vaddr in table && table[m.vaddr] == m;
    }
  }

  ghost predicate EntryReads(m: Mapping, k: nat, files: Files, segs: seq<Segment>, pages: map<nat, Mapping>, image: seq<byte>) {
    Gives(m.vaddr, m.offset, m.name, k, files, segs, ReadVirtual(pages, image, m.vaddr + k))
  }

  /** From its own image a checkpoint reads its dump, its files and zeros. */
  lemma OwnReads(ms: seq<Mapping>, files: Files, segs: seq<Segment>, size: nat, m: Mapping, k: nat)
    requires Laid(ms, segs) && m in ms && k < m.size
    ensures EntryReads(m, k, files, segs, PagesOf(ms), ImageOf(ms, files, segs, size))
  {
    ReadBack(ms, ms, TableOf(ms), files, segs, size, m, m.vaddr + k);
    ExpectedGives(m, files, segs, k);
  }

  /** The whole merge: the second checkpoint is loaded at the base, the page tables come from the two handles, the
      image from both dumps. */
  method MergeCheckpoints(a: seq<Mapping>, b: seq<Mapping>, files: Files, segsA: seq<Segment>, segsB: seq<Segment>)
    returns (ok: bool, pagesA: map<nat, Mapping>, pagesB: map<nat, Mapping>, image: seq<byte>)
    requires Laid(a, segsA) && Laid(b, segsB)
    requires Below(a, BASE_B)
    ensures ok <==> OneStackIn(a) && OneStackIn(b) && forall s :: s in segsA || s in segsB ==> WholePages(s)
    ensures ok && Below(b, 0x8000_0000) ==> |image| == 0x1_0000_0000
    ensures ok ==> forall va: nat ::
                     && ReadVirtual(pagesA, image, va) == ReadVirtual(PagesOf(a), ImageOf(a, files, segsA, MEM_SIZE), va)
                     && ReadVirtual(pagesB, image, va) == ReadVirtual(PagesOf(b), ImageOf(b, files, segsB, MEM_SIZE), va)
    ensures ok ==> forall m, k: nat :: m in a && k < m.size ==> EntryReads(m, k, files, segsA, pagesA, image)
    ensures ok ==> forall m, k: nat :: m in b && k < m.size ==> EntryReads(m, k, files, segsB, pagesB, image)
  {
    var handleA := new CheckpointHandle(a, 0);
    assert Relocated(a, 0) == a;
    var handleB := new CheckpointHandle(b, BASE_B);
    pagesA := handleA.TemplateMappings();
    pagesB := handleB.TemplateMappings();
    image := [];
    ok := OneStackEach(handleA, handleB);
    RelocatedStack(b, BASE_B);
    StackListed(a);
    StackListed(b);
    if !ok {
      return;
    }
    ok, image := Merge(handleA, handleB, files, segsA, segsB);
    if ok {
      MergedSize(a, b, files, segsA, segsB);
      MergedReads(a, b, files, segsA, segsB, pagesA, pagesB, image);
    }
  }

  lemma MergedReads(
    a: seq<Mapping>, b: seq<Mapping>, files: Files, segsA: seq<Segment>, segsB: seq<Segment>,
    pagesA: map<nat, Mapping>, pagesB: map<nat, Mapping>, image: seq<byte>)
    requires Laid(a, segsA) && Laid(b, segsB) && Below(a, BASE_B)
    requires pagesA == PagesOf(a) && pagesB == PagesOf(Relocated(b, BASE_B))
    requires image == MergedOf(a, Relocated(b, BASE_B), files, segsA, segsB, MEM_SIZE)
    ensures forall va: nat ::
              && ReadVirtual(pagesA, image, va) == ReadVirtual(PagesOf(a), ImageOf(a, files, segsA, MEM_SIZE), va)
              && ReadVirtual(pagesB, image, va) == ReadVirtual(PagesOf(b), ImageOf(b, files, segsB, MEM_SIZE), va)
    ensures forall m, k: nat :: m in a && k < m.size ==> EntryReads(m, k, files, segsA, pagesA, image)
    ensures forall m, k: nat :: m in b && k < m.size ==> EntryReads(m, k, files, segsB, pagesB, image)
  {
    forall va: nat
      ensures ReadVirtual(pagesA, image, va) == ReadVirtual(PagesOf(a), ImageOf(a, files, segsA, MEM_SIZE), va)
      ensures ReadVirtual(pagesB, image, va) == ReadVirtual(PagesOf(b), ImageOf(b, files, segsB, MEM_SIZE), va)
    {
      MergeAtTwoGiB(a, b, files, segsA, segsB, va);
    }
    forall m, k: nat | m in a && k < m.size
      ensures EntryReads(m, k, files, segsA, pagesA, image)
    {
      OwnReads(a, files, segsA, MEM_SIZE, m, k);
      MergeAtTwoGiB(a, b, files, segsA, segsB, m.vaddr + k);
    }
    forall m, k: nat | m in b && k < m.size
      ensures EntryReads(m, k, files, segsB, pagesB, image)
    {
      OwnReads(b, files, segsB, MEM_SIZE, m, k);
      MergeAtTwoGiB(a, b, files, segsA, segsB, m.vaddr + k);
    }
  }

  /** A dumped byte of the second program decides the merged byte. */
  lemma SecondOverwrites(
    a: seq<Mapping>, b: seq<Mapping>, files: Files, segsA: seq<Segment>, segsB: seq<Segment>, size: nat, n: Mapping, i: nat)
    requires Separate(b) && Lists(b, TableOf(b)) && SegmentsFit(TableOf(b), segsB)
    requires n in b && i < n.size && DumpedByte(segsB, n.vaddr, i).Some?
    ensures ByteAt(MergedOf(a, b, files, segsA, segsB, size), n.paddr + i) == DumpedByte(segsB, n.vaddr, i).value
  {
    var ja, jf, js := JournalOf(a, files, segsA), FileWrites(b, files, segsB), SegmentWrites(TableOf(b), segsB);
    ReplayByte(Zeros(size), ja + JournalOf(b, files, segsB), n.paddr + i);
    EffectAppend(ja, JournalOf(b, files, segsB), n.paddr + i, 0);
    var y := Effect(ja, n.paddr + i, 0);
    EffectAppend(jf, js, n.paddr + i, y);
    forall u | u in TableOf(b) && u != n.vaddr
      ensures Apart(n.paddr, n.size, TableOf(b)[u].paddr, TableOf(b)[u].size)
    {
      assert PairApart(n, TableOf(b)[u]);
    }
    SegmentWritesEffect(TableOf(b), segsB, n.vaddr, i, Effect(jf, n.paddr + i, y));
  }

  /** A dump that fills one mapping with a given byte. */
  lemma ConstantDump(b: seq<Mapping>, n: Mapping, x: byte, i: nat) returns (segs: seq<Segment>)
    requires Laid(b, []) && n in b && i < n.size
    ensures Laid(b, segs) && forall s :: s in segs ==> Loadable(s)
    ensures DumpedByte(segs, n.vaddr, i) == Some(x)
  {
    segs := [Segment(n.vaddr, n.size, seq(n.size, _ => x))];
    assert Aligned(n);
  }

  lemma OneByteDiffers(a: seq<Mapping>, x: seq<byte>, y: seq<byte>, m: Mapping, pa: nat)
    requires Separate(a) && AllAligned(a)
    requires m in a && m.paddr <= pa < m.paddr + m.size && ByteAt(x, pa) != ByteAt(y, pa)
    ensures ReadVirtual(PagesOf(a), x, m.vaddr + (pa - m.paddr)) != ReadVirtual(PagesOf(a), y, m.vaddr + (pa - m.paddr))
  {
    PagesTranslate(a, m, m.vaddr + (pa - m.paddr));
  }

  /** The condition is necessary: if some physical byte `pa` belongs to both layouts, there is a dump of the second
      program that destroys a byte of the first. */
  lemma OverlapCorrupts(
    a: seq<Mapping>, b: seq<Mapping>, files: Files, segsA: seq<Segment>, size: nat, m: Mapping, n: Mapping, pa: nat)
    returns (segsB: seq<Segment>)
    requires Separate(a) && AllAligned(a) && Laid(b, [])
    requires m in a && m.paddr <= pa < m.paddr + m.size
    requires n in b && n.paddr <= pa < n.paddr + n.size
    ensures Laid(b, segsB) && forall s :: s in segsB ==> Loadable(s)
    ensures ReadVirtual(PagesOf(a), MergedOf(a, b, files, segsA, segsB, size), m.vaddr + (pa - m.paddr))
         != ReadVirtual(PagesOf(a), ImageOf(a, files, segsA, size), m.vaddr + (pa - m.paddr))
  {
    var alone := ImageOf(a, files, segsA, size);
    segsB := ConstantDump(b, n, if ByteAt(alone, pa) == 0 then 1 else 0, pa - n.paddr);
    SecondOverwrites(a, b, files, segsA, segsB, size, n, pa - n.paddr);
    OneByteDiffers(a, MergedOf(a, b, files, segsA, segsB, size), alone, m, pa);
  }
}
