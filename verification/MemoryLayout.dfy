/** Layout of a process's regions in physical memory, in the two forms the checkpoint needs: one
    entry a region (for the image writer) and one entry a page (for the page table of gem5). */
module MemoryLayout {
  import opened Basics

  const PAGE_SIZE: nat := 4096

  const BAD_MEM_REGIONS: set<string> := {"[vvar]", "[vsyscall]"}

  /** A line of `info proc mappings`. */
  datatype Region = Region(vaddr: nat, size: nat, offset: nat, name: string)

  datatype Mapping = Mapping(index: nat, paddr: nat, vaddr: nat, size: nat, offset: nat, flags: nat, name: string)

  /** The region list starts with a page at address 0. */
  function WithNull(process: seq<Region>): seq<Region> {
    [Region(0, PAGE_SIZE, 0, "null")] + process
  }

  function TotalSize(regions: seq<Region>): nat {
    if regions == [] then 0
    else TotalSize(regions[..|regions| - 1]) + regions[|regions| - 1].size
  }

  /** Physical addresses: a running sum over all regions, dropped ones included. */
  method PhysicalAddresses(regions: seq<Region>) returns (paddrs: seq<nat>)
    ensures |paddrs| == |regions|
    ensures forall i :: 0 <= i < |regions| ==> paddrs[i] == TotalSize(regions[..i])
  {
    paddrs := [];
    var nextPaddr: nat := 0;
    for i := 0 to |regions|
      invariant |paddrs| == i
      invariant nextPaddr == TotalSize(regions[..i])
      invariant forall k :: 0 <= k < i ==> paddrs[k] == TotalSize(regions[..k])
    {
      paddrs := paddrs + [nextPaddr];
      assert regions[..i + 1][..i] == regions[..i];
      nextPaddr := nextPaddr + regions[i].size;
    }
  }

  // ----- the entries that are kept -----

  predicate Dropped(filter: bool, r: Region) {
    filter && r.name in BAD_MEM_REGIONS
  }

  /** The region-level entries, in order: `index` numbers the kept regions only, `paddr` counts all of them. */
  function Kept(regions: seq<Region>, filter: bool): seq<Mapping> {
    if regions == [] then []
    else
      var front := regions[..|regions| - 1];
      var r := regions[|regions| - 1];
      var ms := Kept(front, filter);
      if Dropped(filter, r) then ms
      else ms + [Mapping(|ms|, TotalSize(front), r.vaddr, r.size, r.offset, 0, r.name)]
  }

  // ----- dictionaries built from entries -----

  /** The dictionary keyed by start address; a later entry replaces an earlier one. */
  function TableOf(ms: seq<Mapping>): map<nat, Mapping> {
    if ms == [] then map[]
    else var m := ms[|ms| - 1]; TableOf(ms[..|ms| - 1])[m.vaddr := m]
  }

  /** The entry for the page `off` bytes into a region. */
  function PageEntry(m: Mapping, off: nat): Mapping {
    Mapping(m.index, if m.paddr != 0 then m.paddr + off else 0, m.vaddr + off, PAGE_SIZE, m.offset + off, m.flags, m.name)
  }

  /** `n` pages of one region added to a page table. */
  function AddPages(pages: map<nat, Mapping>, m: Mapping, n: nat): map<nat, Mapping> {
    if n == 0 then pages
    else AddPages(pages, m, n - 1)[m.vaddr + (n - 1) * PAGE_SIZE := PageEntry(m, (n - 1) * PAGE_SIZE)]
  }

  /** Number of steps of `range(0, size, pgsize)`. */
  function PageCount(size: nat): nat {
    (size + PAGE_SIZE - 1) / PAGE_SIZE
  }

  function PagesOf(ms: seq<Mapping>): map<nat, Mapping> {
    if ms == [] then map[]
    else var m := ms[|ms| - 1]; AddPages(PagesOf(ms[..|ms| - 1]), m, PageCount(m.size))
  }

  method ExpandPages(pages: map<nat, Mapping>, m: Mapping) returns (r: map<nat, Mapping>)
    ensures r == AddPages(pages, m, PageCount(m.size))
  {
    r := pages;
    var off: nat, k: nat := 0, 0;
    while off < m.size
      invariant off == k * PAGE_SIZE && k <= PageCount(m.size)
      invariant r == AddPages(pages, m, k)
    {
      r := r[m.vaddr + off := PageEntry(m, off)];
      off, k := off + PAGE_SIZE, k + 1;
    }
  }

  /** `_create_mappings`: the same walk builds either dictionary. */
  method CreateMappings(regions: seq<Region>, filter: bool, expand: bool) returns (mappings: map<nat, Mapping>)
    ensures mappings == if expand then PagesOf(Kept(regions, filter)) else TableOf(Kept(regions, filter))
  {
    var paddrs := PhysicalAddresses(regions);
    mappings := map[];
    var index: nat := 0;
    assert regions[..0] == [];
    for i := 0 to |regions|
      invariant index == |Kept(regions[..i], filter)|
      invariant mappings == if expand then PagesOf(Kept(regions[..i], filter)) else TableOf(Kept(regions[..i], filter))
    {
      var r := regions[i];
      assert regions[..i + 1][..i] == regions[..i];
      if Dropped(filter, r) {
        continue;
      }
      var m := Mapping(index, paddrs[i], r.vaddr, r.size, r.offset, 0, r.name);
      ghost var before := Kept(regions[..i], filter);
      assert Kept(regions[..i + 1], filter) == before + [m];
      assert (before + [m])[..|before|] == before;
      if expand {
        mappings := ExpandPages(mappings, m);
      } else {
        mappings := mappings[m.vaddr := m];
      }
      index := index + 1;
    }
    assert regions[..|regions|] == regions;
  }

  // ----- what a well-formed process gives -----

  predicate Apart(a: nat, aSize: nat, b: nat, bSize: nat) {
    a + aSize <= b || b + bSize <= a
  }

  /** Regions are non-empty, page aligned and do not overlap (the null page included). */
  ghost predicate WellFormed(regions: seq<Region>) {
    && (forall i :: 0 <= i < |regions| ==>
          regions[i].vaddr % PAGE_SIZE == 0 && regions[i].size % PAGE_SIZE == 0 && regions[i].size > 0)
    && (forall i, j :: 0 <= i < j < |regions| ==>
          Apart(regions[i].vaddr, regions[i].size, regions[j].vaddr, regions[j].size))
  }

  /** Two entries that share no virtual and no physical byte, unless they are the same. */
  predicate PairApart(m: Mapping, n: Mapping) {
    m != n ==> Apart(m.vaddr, m.size, n.vaddr, n.size) && Apart(m.paddr, m.size, n.paddr, n.size)
  }

  ghost predicate Separate(ms: seq<Mapping>) {
    forall m, n {:trigger PairApart(m, n)} :: m in ms && n in ms ==> PairApart(m, n)
  }

  ghost predicate Aligned(m: Mapping) {
    m.vaddr % PAGE_SIZE == 0 && m.size % PAGE_SIZE == 0 && m.size > 0 && (m.paddr == 0 ==> m.size == PAGE_SIZE)
  }

  ghost predicate AllAligned(ms: seq<Mapping>) {
    forall m {:trigger Aligned(m)} :: m in ms ==> Aligned(m)
  }

  /** The entry list is a listing of the dictionary, in any order. */
  ghost predicate Lists(ms: seq<Mapping>, table: map<nat, Mapping>) {
    && (forall m :: m in ms ==> m.vaddr in table && table[m.vaddr] == m)
    && (forall v :: v in table ==> table[v] in ms && table[v].vaddr == v)
  }

  lemma {:induction false} KeptIsSubset(regions: seq<Region>, filter: bool, m: Mapping)
    requires m in Kept(regions, filter)
    ensures exists i :: 0 <= i < |regions| && m.vaddr == regions[i].vaddr && m.size == regions[i].size
                        && m.offset == regions[i].offset && m.name == regions[i].name
                        && m.paddr == TotalSize(regions[..i]) && !Dropped(filter, regions[i])
  {
    var n := |regions| - 1;
    var front := regions[..n];
    if m in Kept(front, filter) {
      KeptIsSubset(front, filter, m);
      var i :| 0 <= i < |front| && m.vaddr == front[i].vaddr && m.size == front[i].size
               && m.offset == front[i].offset && m.name == front[i].name
               && m.paddr == TotalSize(front[..i]) && !Dropped(filter, front[i]);
      assert front[..i] == regions[..i];
    } else {
      assert front == regions[..n];
    }
  }

  /** Conversely, every region that is not dropped has its entry. */
  lemma {:induction false} KeptIsComplete(regions: seq<Region>, filter: bool, i: nat)
    requires i < |regions| && !Dropped(filter, regions[i])
    ensures exists m :: m in Kept(regions, filter) && m.vaddr == regions[i].vaddr && m.size == regions[i].size
                        && m.offset == regions[i].offset && m.name == regions[i].name
                        && m.paddr == TotalSize(regions[..i])
  {
    var n := |regions| - 1;
    if i < n {
      KeptIsComplete(regions[..n], filter, i);
      assert regions[..n][..i] == regions[..i];
    } else {
      var ms := Kept(regions, filter);
      assert ms[|ms| - 1] in ms;
    }
  }

  lemma {:induction false} TotalSizeMonotone(regions: seq<Region>, i: nat, j: nat)
    requires i < j <= |regions|
    ensures TotalSize(regions[..i]) + regions[i].size <= TotalSize(regions[..j])
    decreases j
  {
    assert regions[..j][..j - 1] == regions[..j - 1];
    if i < j - 1 {
      TotalSizeMonotone(regions, i, j - 1);
    }
  }

  /** The entries of a well-formed process share no byte, virtual or physical. */
  lemma KeptSeparate(regions: seq<Region>, filter: bool)
    requires WellFormed(regions)
    ensures Separate(Kept(regions, filter))
  {
    forall m, n | m in Kept(regions, filter) && n in Kept(regions, filter)
      ensures PairApart(m, n)
    {
      KeptIsSubset(regions, filter, m);
      KeptIsSubset(regions, filter, n);
      var i :| 0 <= i < |regions| && m.vaddr == regions[i].vaddr && m.size == regions[i].size && m.paddr == TotalSize(regions[..i]);
      var j :| 0 <= j < |regions| && n.vaddr == regions[j].vaddr && n.size == regions[j].size && n.paddr == TotalSize(regions[..j]);
      if i == j {
        KeptDetermined(regions, filter, m, n);
      } else if i < j {
        TotalSizeMonotone(regions, i, j);
      } else {
        TotalSizeMonotone(regions, j, i);
      }
    }
  }

  /** Two entries at one physical address are the same entry, since no region is empty. */
  lemma {:induction false} KeptDetermined(regions: seq<Region>, filter: bool, m: Mapping, n: Mapping)
    requires forall i :: 0 <= i < |regions| ==> regions[i].size > 0
    requires m in Kept(regions, filter) && n in Kept(regions, filter) && m.paddr == n.paddr
    ensures m == n
  {
    var k := |regions| - 1;
    var front := regions[..k];
    var ms := Kept(front, filter);
    if m in ms && n in ms {
      KeptDetermined(front, filter, m, n);
    } else if m in ms {
      KeptBelowTotal(front, filter, m);
      KeptIsSubset(front, filter, m);
    } else if n in ms {
      KeptBelowTotal(front, filter, n);
      KeptIsSubset(front, filter, n);
    }
  }

  lemma {:induction false} KeptBelowTotal(regions: seq<Region>, filter: bool, m: Mapping)
    requires m in Kept(regions, filter)
    ensures m.paddr + m.size <= TotalSize(regions)
  {
    KeptIsSubset(regions, filter, m);
    var i :| 0 <= i < |regions| && m.size == regions[i].size && m.paddr == TotalSize(regions[..i]);
    assert regions[..|regions|] == regions;
    TotalSizeMonotone(regions, i, |regions|);
  }

  lemma KeptAligned(process: seq<Region>, filter: bool, m: Mapping)
    requires WellFormed(WithNull(process))
    requires m in Kept(WithNull(process), filter)
    ensures Aligned(m)
  {
    var regions := WithNull(process);
    KeptIsSubset(regions, filter, m);
    var i :| 0 <= i < |regions| && m.vaddr == regions[i].vaddr && m.size == regions[i].size && m.paddr == TotalSize(regions[..i]);
    if i > 0 {
      assert TotalSize(regions[..0]) == 0;
      TotalSizeMonotone(regions, 0, i);
    }
  }

  // ----- lookups -----

  /** In the region dictionary of separate entries every entry is found under its start address, and nothing else is. */
  lemma {:induction false} TableLookup(ms: seq<Mapping>)
    requires Separate(ms) && forall m :: m in ms ==> m.size > 0
    ensures Lists(ms, TableOf(ms))
  {
    if ms != [] {
      var front, last := ms[..|ms| - 1], ms[|ms| - 1];
      assert last in ms;
      assert forall m :: m in front ==> m in ms;
      assert forall m :: m in ms ==> m in front || m == last;
      TableLookup(front);
      forall m | m in front
        ensures m.vaddr == last.vaddr ==> m == last
      {
        assert PairApart(m, last);
      }
    }
  }

  // ----- what an entry says -----

  /** The entries are numbered from 0 in the order of the regions. */
  lemma {:induction false} KeptIndexed(regions: seq<Region>, filter: bool, k: nat)
    requires k < |Kept(regions, filter)|
    ensures Kept(regions, filter)[k].index == k && Kept(regions, filter)[k].flags == 0
  {
    var front := regions[..|regions| - 1];
    if k < |Kept(front, filter)| {
      KeptIndexed(front, filter, k);
    }
  }

  /** A page entry carries its region's number, flags and name, and the file offset of that page. */
  lemma PageFields(m: Mapping, page: nat, pages: map<nat, Mapping>)
    requires Aligned(m) && page % 4096 == 0 && m.vaddr <= page < m.vaddr + m.size
    ensures var table := AddPages(pages, m, PageCount(m.size));
            page in table
            && table[page] == Mapping(m.index, m.paddr + (page - m.vaddr), page, 4096, m.offset + (page - m.vaddr), m.flags, m.name)
  {
    AlignedPage(m.vaddr, m.size, page);
    AddPagesAt(pages, m, PageCount(m.size), page);
  }

  // ----- the stack -----

  /** `'stack' in name`. */
  predicate IsStack(name: string) {
    exists i :: 0 <= i <= |name| && "stack" <= name[i..]
  }

  lemma IsStackMeans(name: string)
    ensures IsStack(name) <==> Within("stack", name)
  {
    if IsStack(name) {
      var i :| 0 <= i <= |name| && "stack" <= name[i..];
      assert name == name[..i] + "stack" + name[i + 5..];
    }
    if Within("stack", name) {
      var a, b :| name == a + "stack" + b;
      assert name[|a|..] == "stack" + b;
    }
  }

  ghost predicate OneStack(table: map<nat, Mapping>) {
    exists v :: v in table && IsStack(table[v].name) && forall u :: u in table && IsStack(table[u].name) ==> u == v
  }

  /** The assertion on the stack mappings: there is exactly one. */
  method FindStack(table: map<nat, Mapping>) returns (one: bool)
    ensures one <==> OneStack(table)
  {
    var stacks: set<nat>, rest := {}, table.Keys;
    while rest != {}
      invariant rest <= table.Keys
      invariant stacks == set v | v in table && v !in rest && IsStack(table[v].name)
      decreases |rest|
    {
      var v :| v in rest;
      if IsStack(table[v].name) {
        stacks := stacks + {v};
      }
      rest := rest - {v};
    }
    one := |stacks| == 1;
    OneBySize(stacks);
    assert forall v :: v in stacks <==> v in table && IsStack(table[v].name);
  }

  lemma OneBySize(s: set<nat>)
    ensures |s| == 1 <==> exists v :: v in s && forall u :: u in s ==> u == v
  {
    if |s| == 1 {
      var v :| v in s;
      assert |s - {v}| == 0;
    }
    assert forall v :: v in s && (forall u :: u in s ==> u == v) ==> s == {v};
  }

  /** gem5's page walk: the page that holds the address, then the offset in the page. */
  function Translate(pages: map<nat, Mapping>, va: nat): Option<nat> {
    var page := va - va % PAGE_SIZE;
    if page in pages then Some(pages[page].paddr + va % PAGE_SIZE) else None
  }

  lemma {:induction false} AddPagesAt(pages: map<nat, Mapping>, m: Mapping, n: nat, page: nat)
    requires m.vaddr % PAGE_SIZE == 0 && page % PAGE_SIZE == 0
    ensures m.vaddr <= page < m.vaddr + n * PAGE_SIZE ==>
              page in AddPages(pages, m, n) && AddPages(pages, m, n)[page] == PageEntry(m, page - m.vaddr)
    ensures !(m.vaddr <= page < m.vaddr + n * PAGE_SIZE) ==>
              (page in AddPages(pages, m, n) <==> page in pages)
              && (page in pages ==> AddPages(pages, m, n)[page] == pages[page])
  {
    if n > 0 {
      AddPagesAt(pages, m, n - 1, page);
    }
  }

  lemma AlignedPage(v: nat, size: nat, va: nat)
    requires v % PAGE_SIZE == 0 && size % PAGE_SIZE == 0
    ensures PageCount(size) * PAGE_SIZE == size
    ensures (va - va % PAGE_SIZE) % PAGE_SIZE == 0
    ensures v <= va < v + size <==> v <= va - va % PAGE_SIZE < v + size
  {
    var a, b, c := v / PAGE_SIZE, size / PAGE_SIZE, va / PAGE_SIZE;
    assert v == a * PAGE_SIZE && size == b * PAGE_SIZE && va - va % PAGE_SIZE == c * PAGE_SIZE;
  }

  /** Adding one region's pages redirects exactly the addresses inside that region. */
  lemma TranslateAfterAdd(pages: map<nat, Mapping>, m: Mapping, va: nat)
    requires Aligned(m)
    ensures Translate(AddPages(pages, m, PageCount(m.size)), va)
         == if m.vaddr <= va < m.vaddr + m.size then Some(m.paddr + (va - m.vaddr)) else Translate(pages, va)
  {
    AlignedPage(m.vaddr, m.size, va);
    AddPagesAt(pages, m, PageCount(m.size), va - va % PAGE_SIZE);
  }

  /** Through the page table, an address inside a kept region reaches the byte at the same distance from the
      region's physical start. */
  lemma {:induction false} PagesTranslate(ms: seq<Mapping>, m: Mapping, va: nat)
    requires Separate(ms) && AllAligned(ms)
    requires m in ms && m.vaddr <= va < m.vaddr + m.size
    ensures Translate(PagesOf(ms), va) == Some(m.paddr + (va - m.vaddr))
  {
    var front, last := ms[..|ms| - 1], ms[|ms| - 1];
    assert last in ms && Aligned(last) && PairApart(m, last);
    TranslateAfterAdd(PagesOf(front), last, va);
    if m != last {
      assert m in front;
      PagesTranslate(front, m, va);
    }
  }

  /** An address in no kept region is not mapped. */
  lemma {:induction false} PagesUnmapped(ms: seq<Mapping>, va: nat)
    requires AllAligned(ms) && forall m :: m in ms ==> !(m.vaddr <= va < m.vaddr + m.size)
    ensures Translate(PagesOf(ms), va) == None
  {
    if ms != [] {
      var front, last := ms[..|ms| - 1], ms[|ms| - 1];
      assert last in ms && Aligned(last);
      TranslateAfterAdd(PagesOf(front), last, va);
      PagesUnmapped(front, va);
    }
  }

  /** Distinct mapped virtual addresses never share a physical byte. */
  lemma TranslateInjective(ms: seq<Mapping>, va: nat, vb: nat)
    requires Separate(ms) && AllAligned(ms)
    requires Translate(PagesOf(ms), va).Some? && Translate(PagesOf(ms), va) == Translate(PagesOf(ms), vb)
    ensures va == vb
  {
    if forall m :: m in ms ==> !(m.vaddr <= va < m.vaddr + m.size) {
      PagesUnmapped(ms, va);
    } else if forall m :: m in ms ==> !(m.vaddr <= vb < m.vaddr + m.size) {
      PagesUnmapped(ms, vb);
    } else {
      var m :| m in ms && m.vaddr <= va < m.vaddr + m.size;
      var n :| n in ms && n.vaddr <= vb < n.vaddr + n.size;
      PagesTranslate(ms, m, va);
      PagesTranslate(ms, n, vb);
      assert PairApart(m, n);
    }
  }
}
