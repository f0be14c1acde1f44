/** Conversion of a gdb core dump into a gem5 memory image: reading through the page table gives back what was
    dumped. */
module CheckpointImage {
  import opened Basics
  import opened PhysicalImage
  import opened MemoryLayout

  /** A PT_LOAD segment of the core file. */
  datatype Segment = Segment(vaddr: nat, memsz: nat, data: seq<byte>)

  /** The regular files of the host, by path. */
  type Files = map<string, seq<byte>>

  predicate Holds(s: Segment, v: nat) {
    s.vaddr <= v < s.vaddr + s.memsz
  }

  /** The converter asserts this of every segment it visits. */
  predicate Loadable(s: Segment) {
    |s.data| == s.memsz && s.memsz % PAGE_SIZE == 0
  }

  /** `seek(off)` then `read(size)` on a host file: short at the end of the file. */
  function ReadFile(f: seq<byte>, off: nat, size: nat): seq<byte> {
    if |f| <= off then [] else if off + size <= |f| then f[off..off + size] else f[off..]
  }

  // ----- the writes, in program order -----

  predicate FileBacked(m: Mapping, files: Files) {
    m.vaddr != 0 && m.name in files
  }

  /** One write of the backing file for each segment that does not hold the mapping's start. */
  function WritesOfFile(m: Mapping, files: Files, segs: seq<Segment>): seq<Write>
    requires FileBacked(m, files)
  {
    if segs == [] then []
    else
      var before := WritesOfFile(m, files, segs[..|segs| - 1]);
      if Holds(segs[|segs| - 1], m.vaddr) then before
      else before + [Write(m.paddr, ReadFile(files[m.name], m.offset, m.size))]
  }

  function FileWrites(ms: seq<Mapping>, files: Files, segs: seq<Segment>): seq<Write> {
    if ms == [] then []
    else
      var before := FileWrites(ms[..|ms| - 1], files, segs);
      var m := ms[|ms| - 1];
      if FileBacked(m, files) then before + WritesOfFile(m, files, segs) else before
  }

  /** Each segment that starts at a mapping is written at that mapping's physical address. */
  function SegmentWrites(table: map<nat, Mapping>, segs: seq<Segment>): seq<Write> {
    if segs == [] then []
    else
      var before := SegmentWrites(table, segs[..|segs| - 1]);
      var s := segs[|segs| - 1];
      if s.vaddr in table then before + [Write(table[s.vaddr].paddr, s.data)] else before
  }

  function Journal(ms: seq<Mapping>, table: map<nat, Mapping>, files: Files, segs: seq<Segment>): seq<Write> {
    FileWrites(ms, files, segs) + SegmentWrites(table, segs)
  }

  // ----- the writer -----

  method WriteFile(pmem: PmemFile, m: Mapping, files: Files, segs: seq<Segment>)
    requires FileBacked(m, files)
    modifies pmem
    ensures pmem.data == Replay(old(pmem.data), WritesOfFile(m, files, segs))
  {
    for k := 0 to |segs|
      invariant pmem.data == Replay(old(pmem.data), WritesOfFile(m, files, segs[..k]))
    {
      assert segs[..k + 1][..k] == segs[..k];
      if Holds(segs[k], m.vaddr) {
        continue;
      }
      ghost var before := WritesOfFile(m, files, segs[..k]);
      var buf := ReadFile(files[m.name], m.offset, m.size);
      pmem.Seek(m.paddr);
      pmem.Put(buf);
      assert (before + [Write(m.paddr, buf)])[..|before|] == before;
    }
    assert segs[..|segs|] == segs;
  }

  /** `create_pmem_file` after the truncation: `ms` is the dictionary's items in iteration order, `table` the
      dictionary itself. A segment that is not loadable stops the conversion. */
  method WriteImage(pmem: PmemFile, ms: seq<Mapping>, table: map<nat, Mapping>, files: Files, segs: seq<Segment>)
    returns (ok: bool)
    modifies pmem
    ensures ok <==> forall s :: s in segs ==> Loadable(s)
    ensures ok ==> pmem.data == Replay(old(pmem.data), Journal(ms, table, files, segs))
  {
    ghost var start := pmem.data;
    for i := 0 to |ms|
      invariant pmem.data == Replay(start, FileWrites(ms[..i], files, segs))
    {
      assert ms[..i + 1][..i] == ms[..i];
      if FileBacked(ms[i], files) {
        WriteFile(pmem, ms[i], files, segs);
        ReplayAppend(start, FileWrites(ms[..i], files, segs), WritesOfFile(ms[i], files, segs));
      }
    }
    assert ms[..|ms|] == ms;
    ghost var middle := pmem.data;
    for k := 0 to |segs|
      invariant forall s :: s in segs[..k] ==> Loadable(s)
      invariant pmem.data == Replay(middle, SegmentWrites(table, segs[..k]))
    {
      assert segs[..k + 1] == segs[..k] + [segs[k]];
      assert segs[..k + 1][..k] == segs[..k];
      var s := segs[k];
      if !Loadable(s) {
        return false;
      }
      if s.vaddr in table {
        ghost var before := SegmentWrites(table, segs[..k]);
        pmem.Seek(table[s.vaddr].paddr);
        pmem.Put(s.data);
        assert (before + [Write(table[s.vaddr].paddr, s.data)])[..|before|] == before;
      }
    }
    assert segs[..|segs|] == segs;
    ReplayAppend(start, FileWrites(ms, files, segs), SegmentWrites(table, segs));
    return true;
  }

  method CreatePmemFile(memSize: nat, ms: seq<Mapping>, table: map<nat, Mapping>, files: Files, segs: seq<Segment>)
    returns (ok: bool, image: seq<byte>)
    ensures ok <==> forall s :: s in segs ==> Loadable(s)
    ensures ok ==> image == Replay(Zeros(memSize), Journal(ms, table, files, segs))
  {
    var pmem := new PmemFile();
    pmem.Truncate(memSize);
    assert pmem.data == Zeros(memSize);
    ok := WriteImage(pmem, ms, table, files, segs);
    image := pmem.data;
  }

  // ----- what a mapping's bytes have to be -----

  /** Byte `i` of the last segment that starts at `v` and is that long. */
  function DumpedByte(segs: seq<Segment>, v: nat, i: nat): Option<byte> {
    if segs == [] then None
    else
      var s := segs[|segs| - 1];
      if s.vaddr == v && i < |s.data| then Some(s.data[i]) else DumpedByte(segs[..|segs| - 1], v, i)
  }

  /** The backing file supplies byte `i` of the mapping: it is written because some segment does not hold the
      mapping's start, and it is long enough. */
  ghost predicate Backs(m: Mapping, files: Files, segs: seq<Segment>, i: nat) {
    FileBacked(m, files) && (exists s :: s in segs && !Holds(s, m.vaddr)) && m.offset + i < |files[m.name]|
  }

  ghost function BackingByte(m: Mapping, files: Files, segs: seq<Segment>, i: nat): byte {
    if Backs(m, files, segs, i) then files[m.name][m.offset + i] else 0
  }

  ghost function ExpectedByte(m: Mapping, files: Files, segs: seq<Segment>, i: nat): byte {
    match DumpedByte(segs, m.vaddr, i)
    case Some(b) => b
    case None => BackingByte(m, files, segs, i)
  }

  /** A segment that starts at a mapping fits in it. */
  ghost predicate SegmentsFit(table: map<nat, Mapping>, segs: seq<Segment>) {
    forall s :: s in segs && s.vaddr in table ==> |s.data| <= table[s.vaddr].size
  }

  // ----- effect of the writes on one mapping -----

  lemma {:induction false} WritesOfFileStayInside(m: Mapping, files: Files, segs: seq<Segment>, w: Write)
    requires FileBacked(m, files) && w in WritesOfFile(m, files, segs)
    ensures w.pos == m.paddr && |w.buf| <= m.size
  {
    if w !in WritesOfFile(m, files, segs[..|segs| - 1]) {
    } else {
      WritesOfFileStayInside(m, files, segs[..|segs| - 1], w);
    }
  }

  lemma {:induction false} WritesOfFileEffect(m: Mapping, files: Files, segs: seq<Segment>, i: nat, b: byte)
    requires FileBacked(m, files) && i < m.size
    ensures Effect(WritesOfFile(m, files, segs), m.paddr + i, b)
         == if Backs(m, files, segs, i) then files[m.name][m.offset + i] else b
  {
    if segs != [] {
      var front, s := segs[..|segs| - 1], segs[|segs| - 1];
      assert s in segs;
      assert forall t :: t in segs <==> t in front || t == s;
      WritesOfFileEffect(m, files, front, i, b);
      if !Holds(s, m.vaddr) {
        var w := Write(m.paddr, ReadFile(files[m.name], m.offset, m.size));
        EffectAppend(WritesOfFile(m, files, front), [w], m.paddr + i, b);
      }
    }
  }

  lemma {:induction false} FileWritesComeFrom(ms: seq<Mapping>, files: Files, segs: seq<Segment>, w: Write)
    requires w in FileWrites(ms, files, segs)
    ensures exists m :: m in ms && w.pos == m.paddr && |w.buf| <= m.size
  {
    var front, m := ms[..|ms| - 1], ms[|ms| - 1];
    assert m in ms;
    if w in FileWrites(front, files, segs) {
      FileWritesComeFrom(front, files, segs, w);
    } else {
      WritesOfFileStayInside(m, files, segs, w);
    }
  }

  lemma {:induction false} SegmentWritesComeFrom(table: map<nat, Mapping>, segs: seq<Segment>, w: Write)
    requires SegmentsFit(table, segs)
    requires w in SegmentWrites(table, segs)
    ensures exists v :: v in table && w.pos == table[v].paddr && |w.buf| <= table[v].size
  {
    var front, s := segs[..|segs| - 1], segs[|segs| - 1];
    assert s in segs;
    if w in SegmentWrites(table, front) {
      SegmentWritesComeFrom(table, front, w);
    } else {
      assert s.vaddr in table && w == Write(table[s.vaddr].paddr, s.data);
    }
  }

  lemma OtherFile(n: Mapping, files: Files, segs: seq<Segment>, a: nat, b: byte)
    requires FileBacked(n, files) && !(n.paddr <= a < n.paddr + n.size)
    ensures Effect(WritesOfFile(n, files, segs), a, b) == b
  {
    forall w | w in WritesOfFile(n, files, segs)
      ensures !Covers(w, a)
    {
      WritesOfFileStayInside(n, files, segs, w);
    }
    EffectUncovered(WritesOfFile(n, files, segs), a, b);
  }

  /** After the first loop a mapping's bytes are its file's bytes, whatever the other mappings wrote. */
  lemma {:induction false} FileWritesEffect(ms: seq<Mapping>, files: Files, segs: seq<Segment>, m: Mapping, i: nat)
    requires forall n :: n in ms && n != m ==> Apart(m.paddr, m.size, n.paddr, n.size)
    requires i < m.size
    ensures Effect(FileWrites(ms, files, segs), m.paddr + i, 0) == if m in ms then BackingByte(m, files, segs, i) else 0
  {
    if ms != [] {
      var front, n := ms[..|ms| - 1], ms[|ms| - 1];
      assert n in ms;
      assert m in ms <==> m in front || m == n;
      FileWritesEffect(front, files, segs, m, i);
      if FileBacked(n, files) {
        var b := Effect(FileWrites(front, files, segs), m.paddr + i, 0);
        EffectAppend(FileWrites(front, files, segs), WritesOfFile(n, files, segs), m.paddr + i, 0);
        if n == m {
          WritesOfFileEffect(m, files, segs, i, b);
        } else {
          OtherFile(n, files, segs, m.paddr + i, b);
        }
      }
    }
  }

  /** After the second loop a byte that some matching segment has is that segment's; the others are untouched. */
  lemma {:induction false} SegmentWritesEffect(
    table: map<nat, Mapping>, segs: seq<Segment>, v: nat, i: nat, b: byte)
    requires SegmentsFit(table, segs)
    requires v in table && i < table[v].size
    requires forall u :: u in table && u != v ==> Apart(table[v].paddr, table[v].size, table[u].paddr, table[u].size)
    ensures Effect(SegmentWrites(table, segs), table[v].paddr + i, b)
         == match DumpedByte(segs, v, i) case Some(x) => x case None => b
  {
    if segs != [] {
      var front, s := segs[..|segs| - 1], segs[|segs| - 1];
      assert s in segs;
      SegmentWritesEffect(table, front, v, i, b);
      if s.vaddr in table {
        var w := Write(table[s.vaddr].paddr, s.data);
        EffectAppend(SegmentWrites(table, front), [w], table[v].paddr + i, b);
        assert Covers(w, table[v].paddr + i) <==> s.vaddr == v && i < |s.data|;
      }
    }
  }

  lemma ApartFromOthers(ms: seq<Mapping>, table: map<nat, Mapping>, m: Mapping)
    requires Separate(ms) && Lists(ms, table) && m in ms
    ensures forall n :: n in ms && n != m ==> Apart(m.paddr, m.size, n.paddr, n.size)
    ensures forall u :: u in table && u != m.vaddr ==> Apart(m.paddr, m.size, table[u].paddr, table[u].size)
  {
    forall n | n in ms && n != m
      ensures Apart(m.paddr, m.size, n.paddr, n.size)
    {
      assert PairApart(m, n);
    }
  }

  /** Each mapping ends up with its expected bytes. */
  lemma MappingHoldsExpected(
    ms: seq<Mapping>, table: map<nat, Mapping>, files: Files, segs: seq<Segment>, memSize: nat, m: Mapping, i: nat)
    requires Separate(ms) && Lists(ms, table) && SegmentsFit(table, segs)
    requires m in ms && i < m.size
    ensures ByteAt(Replay(Zeros(memSize), Journal(ms, table, files, segs)), m.paddr + i)
         == ExpectedByte(m, files, segs, i)
  {
    ApartFromOthers(ms, table, m);
    FileWritesEffect(ms, files, segs, m, i);
    var j1, j2, a := FileWrites(ms, files, segs), SegmentWrites(table, segs), m.paddr + i;
    SegmentWritesEffect(table, segs, m.vaddr, i, Effect(j1, a, 0));
    JournalByte(memSize, j1, j2, a);
  }

  lemma JournalByte(memSize: nat, j1: seq<Write>, j2: seq<Write>, a: nat)
    ensures ByteAt(Replay(Zeros(memSize), j1 + j2), a) == Effect(j2, a, Effect(j1, a, 0))
  {
    ReplayByte(Zeros(memSize), j1 + j2, a);
    EffectAppend(j1, j2, a, 0);
  }

  lemma JournalComesFrom(ms: seq<Mapping>, table: map<nat, Mapping>, files: Files, segs: seq<Segment>, w: Write)
    requires Lists(ms, table) && SegmentsFit(table, segs)
    requires w in Journal(ms, table, files, segs)
    ensures exists m :: m in ms && w.pos == m.paddr && |w.buf| <= m.size
  {
    if w in FileWrites(ms, files, segs) {
      FileWritesComeFrom(ms, files, segs, w);
    } else {
      SegmentWritesComeFrom(table, segs, w);
    }
  }

  /** No write touches a byte outside the kept mappings, such as the room of a dropped region. */
  lemma OutsideStaysZero(
    ms: seq<Mapping>, table: map<nat, Mapping>, files: Files, segs: seq<Segment>, memSize: nat, a: nat)
    requires Lists(ms, table) && SegmentsFit(table, segs)
    requires forall m :: m in ms ==> !(m.paddr <= a < m.paddr + m.size)
    ensures ByteAt(Replay(Zeros(memSize), Journal(ms, table, files, segs)), a) == 0
  {
    var journal := Journal(ms, table, files, segs);
    ReplayByte(Zeros(memSize), journal, a);
    forall w | w in journal
      ensures !Covers(w, a)
    {
      JournalComesFrom(ms, table, files, segs, w);
    }
    EffectUncovered(journal, a, 0);
  }

  // ----- conversion of one checkpoint -----

  /** A load at a virtual address: through the page table, then from the image. */
  function ReadVirtual(pages: map<nat, Mapping>, image: seq<byte>, va: nat): Option<byte> {
    match Translate(pages, va)
    case Some(pa) => Some(ByteAt(image, pa))
    case None => None
  }

  lemma ReadBack(
    kept: seq<Mapping>, ms: seq<Mapping>, table: map<nat, Mapping>, files: Files, segs: seq<Segment>, memSize: nat,
    m: Mapping, va: nat)
    requires Separate(kept) && Separate(ms) && AllAligned(kept)
    requires m in kept && m in ms && m.vaddr <= va < m.vaddr + m.size
    requires Lists(ms, table) && SegmentsFit(table, segs)
    ensures ReadVirtual(PagesOf(kept), Replay(Zeros(memSize), Journal(ms, table, files, segs)), va)
         == Some(ExpectedByte(m, files, segs, va - m.vaddr))
  {
    PagesTranslate(kept, m, va);
    MappingHoldsExpected(ms, table, files, segs, memSize, m, va - m.vaddr);
  }

  /** Conversion preserves memory. The page table and the region dictionary are made by two separate walks over
      the process's regions; the image is written from the dictionary, in any iteration order. Every byte of
      every kept region is then read back, through the page table, as the byte that was dumped for it (or its
      file's byte, or zero). */
  lemma ConversionPreservesMemory(
    process: seq<Region>, filter: bool, ms: seq<Mapping>, files: Files, segs: seq<Segment>, memSize: nat,
    m: Mapping, va: nat)
    requires WellFormed(WithNull(process))
    requires Lists(ms, TableOf(Kept(WithNull(process), filter)))
    requires SegmentsFit(TableOf(Kept(WithNull(process), filter)), segs)
    requires m in Kept(WithNull(process), filter) && m.vaddr <= va < m.vaddr + m.size
    ensures ReadVirtual(PagesOf(Kept(WithNull(process), filter)),
                        Replay(Zeros(memSize), Journal(ms, TableOf(Kept(WithNull(process), filter)), files, segs)),
                        va)
         == Some(ExpectedByte(m, files, segs, va - m.vaddr))
  {
    LayoutFacts(process, filter, ms);
    ReadBack(Kept(WithNull(process), filter), ms, TableOf(Kept(WithNull(process), filter)), files, segs, memSize, m, va);
  }

  /** What every listing of a well-formed process's dictionary satisfies. */
  lemma LayoutFacts(process: seq<Region>, filter: bool, ms: seq<Mapping>)
    requires WellFormed(WithNull(process))
    requires Lists(ms, TableOf(Kept(WithNull(process), filter)))
    ensures Separate(Kept(WithNull(process), filter)) && Separate(ms)
    ensures AllAligned(Kept(WithNull(process), filter))
    ensures forall m :: m in ms <==> m in Kept(WithNull(process), filter)
  {
    KeptFacts(process, filter);
  }

  lemma KeptFacts(process: seq<Region>, filter: bool)
    requires WellFormed(WithNull(process))
    ensures Separate(Kept(WithNull(process), filter))
    ensures AllAligned(Kept(WithNull(process), filter))
    ensures Lists(Kept(WithNull(process), filter), TableOf(Kept(WithNull(process), filter)))
  {
    var kept := Kept(WithNull(process), filter);
    KeptSeparate(WithNull(process), filter);
    forall m | m in kept
      ensures Aligned(m)
    {
      KeptAligned(process, filter, m);
    }
    TableLookup(kept);
  }

  /** The image keeps the size it was truncated to when the layout fits in it. */
  lemma ImageKeepsSize(
    process: seq<Region>, filter: bool, ms: seq<Mapping>, files: Files, segs: seq<Segment>, memSize: nat)
    requires WellFormed(WithNull(process))
    requires Lists(ms, TableOf(Kept(WithNull(process), filter)))
    requires SegmentsFit(TableOf(Kept(WithNull(process), filter)), segs)
    requires TotalSize(WithNull(process)) <= memSize
    ensures |Replay(Zeros(memSize), Journal(ms, TableOf(Kept(WithNull(process), filter)), files, segs))| == memSize
  {
    var table := TableOf(Kept(WithNull(process), filter));
    LayoutFacts(process, filter, ms);
    forall w | w in Journal(ms, table, files, segs)
      ensures w.pos + |w.buf| <= memSize
    {
      JournalComesFrom(ms, table, files, segs, w);
      var m :| m in ms && w.pos == m.paddr && |w.buf| <= m.size;
      KeptBelowTotal(WithNull(process), filter, m);
    }
    ReplayKeepsSize(Zeros(memSize), Journal(ms, table, files, segs));
  }

  /** The dictionary's items, in some order. */
  method Items(table: map<nat, Mapping>) returns (ms: seq<Mapping>)
    requires forall v :: v in table ==> table[v].vaddr == v
    ensures Lists(ms, table)
  {
    ms := [];
    var rest := table.Keys;
    while rest != {}
      invariant rest <= table.Keys
      invariant forall m :: m in ms ==> m.vaddr in table && table[m.vaddr] == m
      invariant forall v :: v in table && v !in rest ==> table[v] in ms
      decreases |rest|
    {
      var v :| v in rest;
      ms := ms + [table[v]];
      rest := rest - {v};
    }
  }

  // ----- the conversion in the source's own terms -----

  /** Segment `j` is the last one that starts at `v` and reaches beyond offset `k`. */
  ghost predicate LastDump(segs: seq<Segment>, j: nat, v: nat, k: nat) {
    && j < |segs| && segs[j].vaddr == v && k < |segs[j].data|
    && forall l :: j < l < |segs| && segs[l].vaddr == v ==> |segs[l].data| <= k
  }

  /** No segment that starts at `v` reaches beyond offset `k`. */
  ghost predicate NoDump(segs: seq<Segment>, v: nat, k: nat) {
    forall j :: 0 <= j < |segs| && segs[j].vaddr == v ==> |segs[j].data| <= k
  }

  /** Some segment does not contain `v`. */
  ghost predicate SomeMisses(segs: seq<Segment>, v: nat) {
    exists j :: 0 <= j < |segs| && (v < segs[j].vaddr || segs[j].vaddr + segs[j].memsz <= v)
  }

  /** What a load at offset `k` of a mapping gives: the byte of the last dump of that place; without a dump the byte of
      the file the mapping is named after, if the mapping is not at 0, some segment does not contain its start and the
      file reaches that far; otherwise zero. */
  ghost predicate Gives(vaddr: nat, offset: nat, name: string, k: nat, files: Files, segs: seq<Segment>, read: Option<byte>) {
    && (forall j: nat :: LastDump(segs, j, vaddr, k) ==> read == Some(segs[j].data[k]))
    && (NoDump(segs, vaddr, k) ==>
          if vaddr != 0 && name in files && SomeMisses(segs, vaddr) && offset + k < |files[name]|
          then read == Some(files[name][offset + k])
          else read == Some(0))
  }

  lemma {:induction false} DumpedLast(segs: seq<Segment>, j: nat, v: nat, k: nat)
    requires LastDump(segs, j, v, k)
    ensures DumpedByte(segs, v, k) == Some(segs[j].data[k])
  {
    var n := |segs| - 1;
    if j < n {
      assert !(segs[n].vaddr == v && k < |segs[n].data|);
      DumpedLast(segs[..n], j, v, k);
    }
  }

  lemma {:induction false} DumpedNone(segs: seq<Segment>, v: nat, k: nat)
    requires NoDump(segs, v, k)
    ensures DumpedByte(segs, v, k) == None
  {
    if segs != [] {
      DumpedNone(segs[..|segs| - 1], v, k);
    }
  }

  lemma SomeMissesMeans(segs: seq<Segment>, v: nat)
    ensures SomeMisses(segs, v) <==> exists s :: s in segs && !Holds(s, v)
  {
    if SomeMisses(segs, v) {
      var j :| 0 <= j < |segs| && (v < segs[j].vaddr || segs[j].vaddr + segs[j].memsz <= v);
      assert segs[j] in segs;
    }
  }

  /** The expected byte is that byte. */
  lemma ExpectedGives(m: Mapping, files: Files, segs: seq<Segment>, k: nat)
    ensures Gives(m.vaddr, m.offset, m.name, k, files, segs, Some(ExpectedByte(m, files, segs, k)))
  {
    forall j: nat | LastDump(segs, j, m.vaddr, k)
      ensures DumpedByte(segs, m.vaddr, k) == Some(segs[j].data[k])
    {
      DumpedLast(segs, j, m.vaddr, k);
    }
    if NoDump(segs, m.vaddr, k) {
      DumpedNone(segs, m.vaddr, k);
      SomeMissesMeans(segs, m.vaddr);
    }
  }

  /** The regions that are converted: not those of the kernel. */
  ghost predicate Converted(r: Region) {
    r.name != "[vvar]" && r.name != "[vsyscall]"
  }

  ghost predicate RegionReads(r: Region, k: nat, files: Files, segs: seq<Segment>, pages: map<nat, Mapping>, image: seq<byte>) {
    Gives(r.vaddr, r.offset, r.name, k, files, segs, ReadVirtual(pages, image, r.vaddr + k))
  }

  ghost predicate InNoRegion(process: seq<Region>, va: nat) {
    forall i :: 0 <= i < |process| && Converted(process[i]) ==> va < process[i].vaddr || process[i].vaddr + process[i].size <= va
  }

  /** Exactly one converted region has a name with the word stack in it. */
  ghost predicate OneStackRegion(process: seq<Region>) {
    exists i :: 0 <= i < |process| && Converted(process[i]) && Within("stack", process[i].name)
                && forall j :: 0 <= j < |process| && Converted(process[j]) && Within("stack", process[j].name) ==> j == i
  }

  /** The assertions on a segment: all of it is in the file, and it is made of whole pages. */
  ghost predicate WholePages(s: Segment) {
    |s.data| == s.memsz && s.memsz % 4096 == 0
  }

  lemma ConvertedKept(process: seq<Region>, i: nat) returns (m: Mapping)
    requires i < |process| && Converted(process[i])
    ensures m in Kept(WithNull(process), true)
    ensures m.vaddr == process[i].vaddr && m.size == process[i].size && m.offset == process[i].offset && m.name == process[i].name
  {
    var regions := WithNull(process);
    assert regions[i + 1] == process[i];
    KeptIsComplete(regions, true, i + 1);
    m :| m in Kept(regions, true) && m.vaddr == regions[i + 1].vaddr && m.size == regions[i + 1].size
         && m.offset == regions[i + 1].offset && m.name == regions[i + 1].name && m.paddr == TotalSize(regions[..i + 1]);
  }

  /** Every entry is a converted region of the process, or the null page. */
  lemma KeptConverted(process: seq<Region>, m: Mapping) returns (i: int)
    requires m in Kept(WithNull(process), true)
    ensures -1 <= i < |process|
    ensures i == -1 ==> m.vaddr == 0 && m.size == 4096 && m.offset == 0 && m.name == "null"
    ensures i >= 0 ==> Converted(process[i]) && m.vaddr == process[i].vaddr && m.size == process[i].size
                       && m.offset == process[i].offset && m.name == process[i].name
  {
    var regions := WithNull(process);
    KeptIsSubset(regions, true, m);
    var k :| 0 <= k < |regions| && m.vaddr == regions[k].vaddr && m.size == regions[k].size
             && m.offset == regions[k].offset && m.name == regions[k].name
             && m.paddr == TotalSize(regions[..k]) && !Dropped(true, regions[k]);
    i := k - 1;
    assert k > 0 ==> regions[k] == process[i];
  }

  lemma StackRegions(process: seq<Region>)
    requires WellFormed(WithNull(process))
    ensures OneStack(TableOf(Kept(WithNull(process), true))) <==> OneStackRegion(process)
  {
    var kept := Kept(WithNull(process), true);
    var table := TableOf(kept);
    KeptFacts(process, true);
    if OneStack(table) {
      var v :| v in table && IsStack(table[v].name) && forall u :: u in table && IsStack(table[u].name) ==> u == v;
      IsStackMeans(table[v].name);
      NullIsNoStack();
      var i := KeptConverted(process, table[v]);
      forall j | 0 <= j < |process| && Converted(process[j]) && Within("stack", process[j].name)
        ensures j == i
      {
        var m := ConvertedKept(process, j);
        IsStackMeans(m.name);
        assert table[m.vaddr] == m;
        SameStart(process, i, j);
      }
    }
    if OneStackRegion(process) {
      var i :| 0 <= i < |process| && Converted(process[i]) && Within("stack", process[i].name)
               && forall j :: 0 <= j < |process| && Converted(process[j]) && Within("stack", process[j].name) ==> j == i;
      var m := ConvertedKept(process, i);
      IsStackMeans(m.name);
      assert table[m.vaddr] == m;
      forall u | u in table && IsStack(table[u].name)
        ensures u == m.vaddr
      {
        IsStackMeans(table[u].name);
        NullIsNoStack();
        var j := KeptConverted(process, table[u]);
      }
    }
  }

  lemma NullIsNoStack()
    ensures !Within("stack", "null")
  {
    forall a: string, b: string
      ensures "null" != a + "stack" + b
    {
      assert |a + "stack" + b| >= 5;
    }
  }

  lemma SameStart(process: seq<Region>, i: nat, j: nat)
    requires WellFormed(WithNull(process)) && i < |process| && j < |process| && process[i].vaddr == process[j].vaddr
    ensures i == j
  {
    var regions := WithNull(process);
    assert regions[i + 1] == process[i] && regions[j + 1] == process[j];
  }

  const MEM_SIZE: nat := 4 * 1024 * 1024 * 1024

  /** What the written page table and image promise, in terms of the regions, the files and the dump. */
  lemma RegionsRead(
    process: seq<Region>, ms: seq<Mapping>, files: Files, segs: seq<Segment>, pages: map<nat, Mapping>, image: seq<byte>)
    requires WellFormed(WithNull(process))
    requires Lists(ms, TableOf(Kept(WithNull(process), true)))
    requires SegmentsFit(TableOf(Kept(WithNull(process), true)), segs)
    requires pages == PagesOf(Kept(WithNull(process), true))
    requires image == Replay(Zeros(MEM_SIZE), Journal(ms, TableOf(Kept(WithNull(process), true)), files, segs))
    ensures forall i, k: nat :: 0 <= i < |process| && k < process[i].size && Converted(process[i]) ==>
                                  RegionReads(process[i], k, files, segs, pages, image)
    ensures forall k: nat :: k < 4096 ==> RegionReads(Region(0, 4096, 0, "null"), k, files, segs, pages, image)
  {
    forall i, k: nat | 0 <= i < |process| && k < process[i].size && Converted(process[i])
      ensures RegionReads(process[i], k, files, segs, pages, image)
    {
      var m := ConvertedKept(process, i);
      MappingReads(process, ms, files, segs, m, k);
    }
    forall k: nat | k < 4096
      ensures RegionReads(Region(0, 4096, 0, "null"), k, files, segs, pages, image)
    {
      var m := NullKept(process);
      MappingReads(process, ms, files, segs, m, k);
    }
  }

  lemma NullKept(process: seq<Region>) returns (m: Mapping)
    ensures m in Kept(WithNull(process), true) && m.vaddr == 0 && m.size == 4096 && m.offset == 0 && m.name == "null"
  {
    var regions := WithNull(process);
    KeptIsComplete(regions, true, 0);
    m :| m in Kept(regions, true) && m.vaddr == regions[0].vaddr && m.size == regions[0].size
         && m.offset == regions[0].offset && m.name == regions[0].name && m.paddr == TotalSize(regions[..0]);
  }

  lemma MappingReads(process: seq<Region>, ms: seq<Mapping>, files: Files, segs: seq<Segment>, m: Mapping, k: nat)
    requires WellFormed(WithNull(process))
    requires Lists(ms, TableOf(Kept(WithNull(process), true)))
    requires SegmentsFit(TableOf(Kept(WithNull(process), true)), segs)
    requires m in Kept(WithNull(process), true) && k < m.size
    ensures Gives(m.vaddr, m.offset, m.name, k, files, segs,
                  ReadVirtual(PagesOf(Kept(WithNull(process), true)),
                              Replay(Zeros(MEM_SIZE), Journal(ms, TableOf(Kept(WithNull(process), true)), files, segs)),
                              m.vaddr + k))
  {
    ConversionPreservesMemory(process, true, ms, files, segs, MEM_SIZE, m, m.vaddr + k);
    ExpectedGives(m, files, segs, k);
  }

  lemma OutsideUnmapped(process: seq<Region>, va: nat)
    requires WellFormed(WithNull(process)) && 4096 <= va && InNoRegion(process, va)
    ensures Translate(PagesOf(Kept(WithNull(process), true)), va) == None
  {
    KeptFacts(process, true);
    forall m | m in Kept(WithNull(process), true)
      ensures !(m.vaddr <= va < m.vaddr + m.size)
    {
      var i := KeptConverted(process, m);
    }
    PagesUnmapped(Kept(WithNull(process), true), va);
  }

  /** `_create_gem5_checkpoint` and the conversion it starts: when there is one stack and the conversion succeeds, each
      byte of each converted region is read back through the written page table from the written image; beyond the null
      page no other address is mapped. */
  method CreateGem5Checkpoint(process: seq<Region>, files: Files, segs: seq<Segment>)
    returns (ok: bool, pages: map<nat, Mapping>, image: seq<byte>)
    requires WellFormed(WithNull(process))
    requires SegmentsFit(TableOf(Kept(WithNull(process), true)), segs)
    ensures ok <==> OneStackRegion(process) && forall s :: s in segs ==> WholePages(s)
    ensures ok && TotalSize(WithNull(process)) <= 0x1_0000_0000 ==> |image| == 0x1_0000_0000
    ensures ok ==> forall i, k: nat :: 0 <= i < |process| && k < process[i].size && Converted(process[i]) ==>
                                         RegionReads(process[i], k, files, segs, pages, image)
    ensures ok ==> forall k: nat :: k < 4096 ==> RegionReads(Region(0, 4096, 0, "null"), k, files, segs, pages, image)
    ensures forall va: nat :: 4096 <= va && InNoRegion(process, va) ==> ReadVirtual(pages, image, va) == None
  {
    pages := CreateMappings(WithNull(process), true, true);
    var table := CreateMappings(WithNull(process), true, false);
    KeptFacts(process, true);
    forall va: nat | 4096 <= va && InNoRegion(process, va)
      ensures Translate(pages, va) == None
    {
      OutsideUnmapped(process, va);
    }
    image := [];
    ok := FindStack(table);
    StackRegions(process);
    if !ok {
      return;
    }
    var ms := Items(table);
    ok, image := CreatePmemFile(MEM_SIZE, ms, table, files, segs);
    if ok {
      if TotalSize(WithNull(process)) <= MEM_SIZE {
        ImageKeepsSize(process, true, ms, files, segs, MEM_SIZE);
      }
      RegionsRead(process, ms, files, segs, pages, image);
    }
  }
}
