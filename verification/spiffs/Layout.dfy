/** Where SPIFFS puts pages, lookup entries, the magic and the erase count, as the macros
    of the nucleus compute it. */
module SpiffsLayout {
  import opened DivMod

  /** The configuration and the sizes of the types that the macros take. */
  datatype Fs = Fs(
    pageSize: nat, blockSize: nat, physAddr: nat,
    idSize: nat,             // sizeof(spiffs_obj_id)
    ixSize: nat,             // sizeof(spiffs_page_ix)
    hdrIxHeaderSize: nat,    // sizeof(spiffs_page_object_ix_header)
    ixHeaderSize: nat)       // sizeof(spiffs_page_object_ix)

  /** Pages hold whole lookup entries, at least two; a block holds at least one page. */
  predicate Valid(fs: Fs) {
    && fs.idSize > 0 && fs.pageSize % fs.idSize == 0 && fs.pageSize >= 2 * fs.idSize
    && fs.blockSize >= fs.pageSize
  }

  function PagesPerBlock(fs: Fs): (n: nat)
    requires Valid(fs)
    ensures n > 0
  {
    Parts(fs.blockSize, fs.pageSize);
    DivMonotone(fs.pageSize, fs.blockSize, fs.pageSize);
    Unique(fs.pageSize, 1, 0);
    fs.blockSize / fs.pageSize
  }

  function ObjLookupPages(fs: Fs): (l: nat)
    requires Valid(fs)
    ensures l > 0
  {
    var l := (PagesPerBlock(fs) * fs.idSize) / fs.pageSize;
    if l > 1 then l else 1
  }

  predicate IsLookupPage(fs: Fs, pix: nat)
    requires Valid(fs)
  {
    pix % PagesPerBlock(fs) < ObjLookupPages(fs)
  }

  function ObjLookupMaxEntries(fs: Fs): int
    requires Valid(fs)
  {
    PagesPerBlock(fs) - ObjLookupPages(fs)
  }

  function BlockToPaddr(fs: Fs, block: nat): int {
    fs.physAddr + block * fs.blockSize
  }

  function EntryToPix(fs: Fs, block: nat, entry: nat): int
    requires Valid(fs)
  {
    block * PagesPerBlock(fs) + (ObjLookupPages(fs) + entry)
  }

  function EntryToPaddr(fs: Fs, block: nat, entry: nat): int
    requires Valid(fs)
  {
    BlockToPaddr(fs, block) + (ObjLookupPages(fs) + entry) * fs.pageSize
  }

  function PageToPaddr(fs: Fs, page: int): int {
    fs.physAddr + page * fs.pageSize
  }

  function PaddrToPage(fs: Fs, addr: int): int
    requires fs.pageSize > 0
  {
    (addr - fs.physAddr) / fs.pageSize
  }

  function PaddrToPageOffset(fs: Fs, addr: int): int
    requires fs.pageSize > 0
  {
    (addr - fs.physAddr) % fs.pageSize
  }

  function BlockForPage(fs: Fs, page: int): int
    requires Valid(fs)
  {
    page / PagesPerBlock(fs)
  }

  function EntryForPage(fs: Fs, page: int): int
    requires Valid(fs)
  {
    page % PagesPerBlock(fs) - ObjLookupPages(fs)
  }

  // ----- lookup entries and pages -----

  /** Every lookup entry has its own page, which is no lookup page and leads back. */
  lemma EntryPageEntry(fs: Fs, block: nat, entry: nat)
    requires Valid(fs) && entry < ObjLookupMaxEntries(fs)
    ensures var pix := EntryToPix(fs, block, entry);
      && pix >= 0 && !IsLookupPage(fs, pix)
      && BlockForPage(fs, pix) == block && EntryForPage(fs, pix) == entry
  {
    var n, r := PagesPerBlock(fs), ObjLookupPages(fs) + entry;
    Unique(n, block, r);
    Monotone(n, 0, block);
    assert n * block == block * n;
  }

  /** Every page that is no lookup page has its own entry, which leads back. */
  lemma PageEntryPage(fs: Fs, pix: nat)
    requires Valid(fs) && !IsLookupPage(fs, pix)
    ensures var block, entry := BlockForPage(fs, pix), EntryForPage(fs, pix);
      && block >= 0 && 0 <= entry < ObjLookupMaxEntries(fs)
      && EntryToPix(fs, block, entry) == pix
  {
    var n := PagesPerBlock(fs);
    Parts(pix, n);
    assert n * (pix / n) == (pix / n) * n;
  }

  /** Pages and addresses: an address inside a page leads back to the page. */
  lemma PaddrOfPage(fs: Fs, page: nat, offset: nat)
    requires offset < fs.pageSize
    ensures PaddrToPage(fs, PageToPaddr(fs, page) + offset) == page
    ensures PaddrToPageOffset(fs, PageToPaddr(fs, page) + offset) == offset
  {
    Unique(fs.pageSize, page, offset);
    assert fs.pageSize * page == page * fs.pageSize;
  }

  lemma PageOfPaddr(fs: Fs, addr: nat)
    requires fs.pageSize > 0 && addr >= fs.physAddr
    ensures PageToPaddr(fs, PaddrToPage(fs, addr)) + PaddrToPageOffset(fs, addr) == addr
  {
    var x, p := addr - fs.physAddr, fs.pageSize;
    Parts(x, p);
    assert p * (x / p) == (x / p) * p;
  }

  /** The address of an entry's page, computed through the block or through the page index,
      is the same for all entries exactly when blocks are whole numbers of pages. */
  lemma PaddrRoutesAgreeIff(fs: Fs)
    requires Valid(fs)
    ensures (forall block: nat, entry: nat :: EntryToPaddr(fs, block, entry) == PageToPaddr(fs, EntryToPix(fs, block, entry)))
       <==> fs.blockSize % fs.pageSize == 0
  {
    var p, n := fs.pageSize, PagesPerBlock(fs);
    Parts(fs.blockSize, p);
    forall block: nat, entry: nat
      ensures EntryToPaddr(fs, block, entry) - PageToPaddr(fs, EntryToPix(fs, block, entry))
           == block * (fs.blockSize % p)
    {
      PaddrRoutes(p, n, fs.blockSize % p, block, ObjLookupPages(fs) + entry);
    }
    if fs.blockSize % p != 0 {
      assert EntryToPaddr(fs, 1, 0) - PageToPaddr(fs, EntryToPix(fs, 1, 0)) == 1 * (fs.blockSize % p);
    }
  }

  /** A block of 400 bytes has one page of 256, and the page indices lose the rest. */
  lemma PaddrRoutesDiffer() returns (fs: Fs)
    ensures Valid(fs) && fs.pageSize == 256 && fs.blockSize == 400
    ensures EntryToPaddr(fs, 1, 0) == PageToPaddr(fs, EntryToPix(fs, 1, 0)) + 144
  {
    fs := Fs(256, 400, 0, 2, 2, 48, 8);
    assert PagesPerBlock(fs) == 1;
  }

  lemma PaddrRoutes(p: nat, n: nat, rem: nat, block: nat, r: nat)
    ensures block * (p * n + rem) + r * p == (block * n + r) * p + block * rem
  {
    assert block * (p * n + rem) == block * (p * n) + block * rem;
    assert block * (p * n) == (block * n) * p;
    assert (block * n + r) * p == (block * n) * p + r * p;
  }

  /** The pages of a block's entries follow its lookup pages one after the other, and end
      before the next block. */
  lemma EntriesTileBlock(fs: Fs, block: nat, entry: nat)
    requires Valid(fs) && entry < ObjLookupMaxEntries(fs)
    ensures EntryToPaddr(fs, block, 0) == BlockToPaddr(fs, block) + ObjLookupPages(fs) * fs.pageSize
    ensures EntryToPaddr(fs, block, entry + 1) == EntryToPaddr(fs, block, entry) + fs.pageSize
    ensures EntryToPaddr(fs, block, entry) + fs.pageSize <= BlockToPaddr(fs, block + 1)
    ensures EntryToPix(fs, block, entry + 1) == EntryToPix(fs, block, entry) + 1
    ensures BlockToPaddr(fs, 0) == PageToPaddr(fs, 0) == fs.physAddr
  {
    var p, n, k := fs.pageSize, PagesPerBlock(fs), ObjLookupPages(fs) + entry;
    AsManyAsFit(fs.blockSize, p);
    Monotone(p, k + 1, n);
    assert p * (k + 1) == (k + 1) * p == k * p + p && p * n == n * p;
    assert (block + 1) * fs.blockSize == block * fs.blockSize + fs.blockSize;
  }

  // ----- the object index -----

  function ObjHdrIxLen(fs: Fs): int
    requires fs.ixSize > 0
  {
    (fs.pageSize - fs.hdrIxHeaderSize) / fs.ixSize
  }

  function ObjIxLen(fs: Fs): int
    requires fs.ixSize > 0
  {
    (fs.pageSize - fs.ixHeaderSize) / fs.ixSize
  }

  /** An index page holds at least one entry behind either header. */
  predicate HasIndex(fs: Fs) {
    fs.ixSize > 0 && fs.pageSize >= fs.hdrIxHeaderSize + fs.ixSize && fs.pageSize >= fs.ixHeaderSize + fs.ixSize
  }

  lemma IndexLengths(fs: Fs)
    requires HasIndex(fs)
    ensures ObjHdrIxLen(fs) > 0 && ObjIxLen(fs) > 0
  {
    Unique(fs.ixSize, 1, 0);
    DivMonotone(fs.ixSize, fs.pageSize - fs.hdrIxHeaderSize, fs.ixSize);
    DivMonotone(fs.ixSize, fs.pageSize - fs.ixHeaderSize, fs.ixSize);
  }

  lemma AsManyAsFit(room: nat, n: nat)
    requires n > 0
    ensures 0 <= (room / n) * n <= room < (room / n + 1) * n
  {
    Parts(room, n);
    assert n * (room / n) == (room / n) * n;
    assert (room / n + 1) * n == (room / n) * n + n;
    Monotone(n, 0, room / n);
  }

  /** An index page holds its header and as many entries as fit behind it. */
  lemma IndexPagesFull(fs: Fs)
    requires HasIndex(fs)
    ensures fs.hdrIxHeaderSize + ObjHdrIxLen(fs) * fs.ixSize <= fs.pageSize
          < fs.hdrIxHeaderSize + (ObjHdrIxLen(fs) + 1) * fs.ixSize
    ensures fs.ixHeaderSize + ObjIxLen(fs) * fs.ixSize <= fs.pageSize
          < fs.ixHeaderSize + (ObjIxLen(fs) + 1) * fs.ixSize
  {
    AsManyAsFit(fs.pageSize - fs.hdrIxHeaderSize, fs.ixSize);
    AsManyAsFit(fs.pageSize - fs.ixHeaderSize, fs.ixSize);
  }

  /** A block holds as many pages as fit, and the lookup pages are the whole pages that the
      ids of all of them fill, but at least one. */
  lemma BlocksFull(fs: Fs)
    requires Valid(fs)
    ensures var n, l := PagesPerBlock(fs), ObjLookupPages(fs);
      && n * fs.pageSize <= fs.blockSize < (n + 1) * fs.pageSize
      && n * fs.idSize < (l + 1) * fs.pageSize && (l > 1 ==> l * fs.pageSize <= n * fs.idSize)
  {
    var n := PagesPerBlock(fs);
    AsManyAsFit(fs.blockSize, fs.pageSize);
    Monotone(n, 0, fs.idSize);
    var room, p := n * fs.idSize, fs.pageSize;
    AsManyAsFit(room, p);
    Monotone(p, room / p + 1, ObjLookupPages(fs) + 1);
    assert p * (room / p + 1) == (room / p + 1) * p && p * (ObjLookupPages(fs) + 1) == (ObjLookupPages(fs) + 1) * p;
  }

  function ObjIxEntry(fs: Fs, spix: nat): int
    requires HasIndex(fs)
  {
    IndexLengths(fs);
    if spix < ObjHdrIxLen(fs) then spix else (spix - ObjHdrIxLen(fs)) % ObjIxLen(fs)
  }

  function ObjIxEntrySpanIx(fs: Fs, spix: nat): int
    requires HasIndex(fs)
  {
    IndexLengths(fs);
    if spix < ObjHdrIxLen(fs) then 0 else 1 + (spix - ObjHdrIxLen(fs)) / ObjIxLen(fs)
  }

  function DataSpanIxFor(fs: Fs, ix: nat): int
    requires HasIndex(fs)
  {
    if ix == 0 then 0 else ObjHdrIxLen(fs) + (ix - 1) * ObjIxLen(fs)
  }

  /** The number of entries of index page `ix`. */
  function EntriesOf(fs: Fs, ix: nat): int
    requires HasIndex(fs)
  {
    if ix == 0 then ObjHdrIxLen(fs) else ObjIxLen(fs)
  }

  /** A data span index is the first one of its index page plus its entry there. */
  lemma SpanIndexEntry(fs: Fs, spix: nat)
    requires HasIndex(fs)
    ensures var ix, entry := ObjIxEntrySpanIx(fs, spix), ObjIxEntry(fs, spix);
      && ix >= 0 && 0 <= entry < EntriesOf(fs, ix)
      && DataSpanIxFor(fs, ix) + entry == spix
  {
    IndexLengths(fs);
    var h, i := ObjHdrIxLen(fs), ObjIxLen(fs);
    if spix >= h {
      Parts(spix - h, i);
      var q := (spix - h) / i;
      assert i * q == q * i;
    }
  }

  /** ... and every pair of an index page and an entry of it arises from just that one. */
  lemma EntrySpanIndex(fs: Fs, ix: nat, entry: nat)
    requires HasIndex(fs) && entry < EntriesOf(fs, ix)
    ensures var spix := DataSpanIxFor(fs, ix) + entry;
      spix >= 0 && ObjIxEntrySpanIx(fs, spix) == ix && ObjIxEntry(fs, spix) == entry
    ensures forall s: nat | ObjIxEntrySpanIx(fs, s) == ix && ObjIxEntry(fs, s) == entry ::
        s == DataSpanIxFor(fs, ix) + entry
  {
    IndexLengths(fs);
    var h, i := ObjHdrIxLen(fs), ObjIxLen(fs);
    if ix > 0 {
      Unique(i, ix - 1, entry);
      Monotone(i, 0, ix - 1);
      assert i * (ix - 1) == (ix - 1) * i;
    }
    forall s: nat | ObjIxEntrySpanIx(fs, s) == ix && ObjIxEntry(fs, s) == entry
      ensures s == DataSpanIxFor(fs, ix) + entry
    {
      SpanIndexEntry(fs, s);
    }
  }
}
