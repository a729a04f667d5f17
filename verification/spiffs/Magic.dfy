/** The magic and the erase count share the lookup pages with the lookup entries.  The
    check that they may is sound for power-of-two layouts and not for all others. */
module SpiffsMagic {
  import opened DivMod
  import opened SpiffsLayout

  function EraseCountPaddr(fs: Fs, block: nat): int
    requires Valid(fs)
  {
    BlockToPaddr(fs, block) + ObjLookupPages(fs) * fs.pageSize - fs.idSize
  }

  function MagicPaddr(fs: Fs, block: nat): int
    requires Valid(fs)
  {
    BlockToPaddr(fs, block) + ObjLookupPages(fs) * fs.pageSize - fs.idSize * 2
  }

  /** Lookup entries follow each other from the start of the block. */
  function LookupEntryPaddr(fs: Fs, block: nat, entry: nat): int {
    BlockToPaddr(fs, block) + entry * fs.idSize
  }

  predicate CheckMagicPossible(fs: Fs)
    requires Valid(fs)
  {
    (ObjLookupMaxEntries(fs) % EntriesPerPage(fs)) * fs.idSize <= fs.pageSize - fs.idSize * 2
  }

  function EntriesPerPage(fs: Fs): (e: nat)
    requires Valid(fs)
    ensures e >= 2
  {
    EntriesPerPagePositive(fs);
    fs.pageSize / fs.idSize
  }

  lemma EntriesPerPagePositive(fs: Fs)
    requires Valid(fs)
    ensures fs.pageSize / fs.idSize >= 2 && fs.pageSize == (fs.pageSize / fs.idSize) * fs.idSize
  {
    var i := fs.idSize;
    Parts(fs.pageSize, i);
    assert i * (fs.pageSize / i) == (fs.pageSize / i) * i;
    Unique(i, 2, 0);
    assert i * 2 == 2 * i;
    DivMonotone(2 * i, fs.pageSize, i);
  }

  /** In every block all lookup entries end before the magic, which ends before the erase
      count, which ends with the last lookup page. */
  ghost predicate RegionsDisjoint(fs: Fs)
    requires Valid(fs)
  {
    forall block: nat, entry: nat | entry < ObjLookupMaxEntries(fs) ::
      LookupEntryPaddr(fs, block, entry) + fs.idSize <= MagicPaddr(fs, block)
  }

  lemma MagicBeforeEraseCount(fs: Fs, block: nat)
    requires Valid(fs)
    ensures MagicPaddr(fs, block) + fs.idSize == EraseCountPaddr(fs, block)
    ensures EraseCountPaddr(fs, block) + fs.idSize == PageToPaddr(fs, EntryToPix(fs, block, 0))
         <==> block * (fs.blockSize % fs.pageSize) == 0
  {
    var p, n := fs.pageSize, PagesPerBlock(fs);
    Parts(fs.blockSize, p);
    PaddrRoutes(p, n, fs.blockSize % p, block, ObjLookupPages(fs));
  }

  /** The number of lookup pages, in entries per page. */
  lemma LookupPagesByEntries(fs: Fs)
    requires Valid(fs)
    ensures var e, n := EntriesPerPage(fs), PagesPerBlock(fs);
      ObjLookupPages(fs) == if n / e > 1 then n / e else 1
  {
    EntriesPerPagePositive(fs);
    CancelFactor(PagesPerBlock(fs), EntriesPerPage(fs), fs.idSize);
  }

  lemma CancelFactor(n: nat, e: nat, i: nat)
    requires e > 0 && i > 0
    ensures e * i > 0 && (n * i) / (e * i) == n / e
  {
    Parts(n, e);
    var q, r := n / e, n % e;
    assert n * i == (e * i) * q + r * i by { MulOut(e, q, r, i); }
    assert e * i > 0 && 0 <= r * i < e * i by { MulBound(r, e, i); }
    Unique(e * i, q, r * i);
  }

  lemma MulOut(e: nat, q: nat, r: nat, i: nat)
    ensures (e * q + r) * i == (e * i) * q + r * i
  {
    assert (e * q + r) * i == (e * q) * i + r * i;
    assert (e * q) * i == (e * i) * q;
  }

  lemma MulBound(r: nat, e: nat, i: nat)
    requires r < e && i > 0
    ensures 0 <= r * i < e * i
  {
    Monotone(i, 0, r);
    Monotone(i, r + 1, e);
    assert i * (r + 1) == i * r + i && i * e == e * i && i * r == r * i;
  }

  /** Disjointness is a matter of one comparison. */
  lemma DisjointIffRoom(fs: Fs)
    requires Valid(fs)
    ensures RegionsDisjoint(fs)
       <==> ObjLookupMaxEntries(fs) <= 0 || ObjLookupMaxEntries(fs) + 2 <= ObjLookupPages(fs) * EntriesPerPage(fs)
  {
    EntriesPerPagePositive(fs);
    var m, l, e, i := ObjLookupMaxEntries(fs), ObjLookupPages(fs), EntriesPerPage(fs), fs.idSize;
    assert l * fs.pageSize == i * (l * e) by { assert l * (e * i) == i * (l * e); }
    if m <= 0 || m + 2 <= l * e {
      forall block: nat, entry: nat | entry < m
        ensures LookupEntryPaddr(fs, block, entry) + i <= MagicPaddr(fs, block)
      {
        Monotone(i, entry + 3, l * e);
        assert i * (entry + 3) == entry * i + 3 * i;
      }
    } else {
      assert LookupEntryPaddr(fs, 0, m - 1) + i > MagicPaddr(fs, 0) by {
        Monotone(i, l * e, m + 1);
        assert i * (m + 1) == (m - 1) * i + 2 * i;
      }
    }
  }

  /** When the entries and the two extra slots fit, in pages and entries per page. */
  lemma DisjointIff(fs: Fs)
    requires Valid(fs)
    ensures var n, e := PagesPerBlock(fs), EntriesPerPage(fs);
      RegionsDisjoint(fs) <==> n < e || (n > e && n % e + 2 <= n / e)
  {
    DisjointIffRoom(fs);
    LookupPagesByEntries(fs);
    EntriesPerPagePositive(fs);
    DisjointCases(PagesPerBlock(fs), EntriesPerPage(fs));
    hide RegionsDisjoint, PagesPerBlock, EntriesPerPage, ObjLookupPages;
  }

  lemma DisjointCases(n: nat, e: nat)
    requires e >= 2
    ensures var l := if n / e > 1 then n / e else 1;
      n - l <= 0 || n - l + 2 <= l * e <==> n < e || (n > e && n % e + 2 <= n / e)
  {
    Parts(n, e);
    QuotientCases(n, e);
  }

  lemma QuotientCases(n: nat, e: nat)
    requires e > 0
    ensures n < e ==> n / e == 0 && n % e == n
    ensures n == e ==> n / e == 1 && n % e == 0
    ensures e <= n ==> n / e >= 1
    ensures n / e == 1 ==> n == e + n % e
    ensures n / e > 1 ==> n >= 2 * e
  {
    Parts(n, e);
    if n < e { Unique(e, 0, n); }
    if n == e { Unique(e, 1, 0); }
    if e <= n { DivMonotone(e, n, e); Unique(e, 1, 0); }
    if n / e > 1 { Monotone(e, 2, n / e); }
  }

  lemma CheckByEntries(fs: Fs)
    requires Valid(fs)
    ensures CheckMagicPossible(fs) <==>
      ObjLookupMaxEntries(fs) % EntriesPerPage(fs) != EntriesPerPage(fs) - 1
  {
    EntriesPerPagePositive(fs);
    var e, i, r := EntriesPerPage(fs), fs.idSize, ObjLookupMaxEntries(fs) % EntriesPerPage(fs);
    assert fs.pageSize - i * 2 == (e - 2) * i;
    if r <= e - 2 {
      Monotone(i, r, e - 2);
      assert i * r == r * i && i * (e - 2) == (e - 2) * i;
    } else {
      assert r == e - 1;
      assert (e - 1) * i == (e - 2) * i + i;
    }
  }

  /** In a layout whose blocks hold at most one page of entries or whole pages of them,
      the check passes only where the regions are disjoint in every block. */
  lemma CheckSound(fs: Fs)
    requires Valid(fs) && CheckMagicPossible(fs)
    requires PagesPerBlock(fs) <= EntriesPerPage(fs) || PagesPerBlock(fs) % EntriesPerPage(fs) == 0
    ensures RegionsDisjoint(fs)
  {
    CheckByEntries(fs);
    DisjointIff(fs);
    LookupPagesByEntries(fs);
    EntriesPerPagePositive(fs);
    var n, e := PagesPerBlock(fs), EntriesPerPage(fs);
    QuotientCases(n, e);
    Parts(n, e);
    if n == e {
      Unique(e, 0, e - 1);
    } else if n > e {
    }
  }

  // ----- powers of two -----

  /** For power-of-two sizes of blocks, pages and ids, which is what the format asks for,
      a passed check means disjoint regions in every block. */
  lemma CheckSoundForPowersOfTwo(fs: Fs, b: nat, p: nat, i: nat)
    requires fs.blockSize == Pow2(b) && fs.pageSize == Pow2(p) && fs.idSize == Pow2(i)
    requires i < p <= b
    ensures Valid(fs)
    ensures CheckMagicPossible(fs) ==> RegionsDisjoint(fs)
  {
    PowersOfTwoValid(fs, b, p, i);
    PowersOfTwoDivide(fs, b, p, i);
    hide *;
    if CheckMagicPossible(fs) {
      CheckSound(fs);
    }
  }

  lemma PowersOfTwoDivide(fs: Fs, b: nat, p: nat, i: nat)
    requires fs.blockSize == Pow2(b) && fs.pageSize == Pow2(p) && fs.idSize == Pow2(i)
    requires i < p <= b && Valid(fs)
    ensures PagesPerBlock(fs) <= EntriesPerPage(fs) || PagesPerBlock(fs) % EntriesPerPage(fs) == 0
  {
    Pow2Quotient(b, p);
    Pow2Quotient(p, i);
    assert PagesPerBlock(fs) == Pow2(b - p) && EntriesPerPage(fs) == Pow2(p - i);
    hide *;
    Pow2Compare(b - p, p - i);
  }

  lemma PowersOfTwoValid(fs: Fs, b: nat, p: nat, i: nat)
    requires fs.blockSize == Pow2(b) && fs.pageSize == Pow2(p) && fs.idSize == Pow2(i)
    requires i < p <= b
    ensures Valid(fs)
  {
    Pow2Positive(i);
    Pow2Quotient(p, i);
    Pow2Monotone(i + 1, p);
    Pow2Monotone(p, b);
  }

  /** Where the check goes wrong: exactly the layouts with a partial last page of entries
      for which it does not count. */
  lemma CheckUnsoundIff(fs: Fs)
    requires Valid(fs)
    ensures CheckMagicPossible(fs) && !RegionsDisjoint(fs) <==>
      var n, e := PagesPerBlock(fs), EntriesPerPage(fs);
      n > e && n % e + 2 > n / e && ObjLookupMaxEntries(fs) % e != e - 1
  {
    CheckByEntries(fs);
    DisjointIff(fs);
    LookupPagesByEntries(fs);
    EntriesPerPagePositive(fs);
    var n, e := PagesPerBlock(fs), EntriesPerPage(fs);
    QuotientCases(n, e);
    if n == e {
      Unique(e, 0, e - 1);
    }
  }

  /** Such a layout: 192 pages of 256 bytes in a block, ids of two bytes. */
  lemma CheckUnsoundExample() returns (fs: Fs)
    ensures Valid(fs) && CheckMagicPossible(fs) && !RegionsDisjoint(fs)
  {
    fs := Fs(256, 49152, 0, 2, 2, 48, 8);
    CheckUnsoundIff(fs);
    LookupPagesByEntries(fs);
  }
}
