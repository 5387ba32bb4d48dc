/** Opening a table's file: the whole pages are found again, and a page torn at the end is cut off. */
module PageRecovery {
  import opened Sequences
  import opened LittleEndian
  import opened ColumnBytes
  import opened PageFile

  function RowsOf(page: seq<byte>): nat { if |page| < 16 then 0 else Field(page, 12, 4) }

  /** The entries of these pages, by their headers. */
  function EntriesOf(pages: seq<seq<byte>>): seq<PageEntry> {
    if pages == [] then []
    else
      var n := |pages| - 1;
      var front := EntriesOf(pages[..n]);
      front + [PageEntry(Flushed(front), RowsOf(pages[n]), |Flat(pages[..n])|)]
  }

  /** The page at the offset, no page at all, or one that has to be cut off. */
  datatype Found = Page(rows: nat, total: nat) | NoMagic | Damaged

  function Look(file: seq<byte>, off: nat, sum: Sum): Found
    requires off + PAGE_HEADER <= |file|
  {
    if Field(file, off, 4) != PAGE_MAGIC then NoMagic
    else
      var total := PAGE_HEADER + Field(file, off + 16, 4);
      if off + total > |file| || !Accepts(file[off..off + total], sum) then Damaged
      else Page(Field(file, off + 12, 4), total)
  }

  /** A part of a page, cut anywhere. */
  ghost predicate Torn(torn: seq<byte>, page: seq<byte>, sum: Sum) { Sound(page, sum) && torn < page }

  /** A page in the file is found. */
  lemma {:induction false} LookWhole(pages: seq<seq<byte>>, torn: seq<byte>, n: nat, sum: Sum)
    requires AllSound(pages, sum) && n < |pages|
    ensures var file, off := Flat(pages) + torn, |Flat(pages[..n])|;
            off + |pages[n]| <= |file| && |pages[n]| >= PAGE_HEADER && Look(file, off, sum) == Page(RowsOf(pages[n]), |pages[n]|)
  {
    var a, page, b := Flat(pages[..n]), pages[n], Flat(pages[n + 1..]);
    SoundAt(pages, n, sum);
    SplitAt(pages, n);
    ConcatAssoc(a, page + b, torn);
    ConcatAssoc(page, b, torn);
    LookAt(a, page, b + torn, sum);
  }

  lemma {:induction false} LookAt(a: seq<byte>, page: seq<byte>, b: seq<byte>, sum: Sum)
    requires Sound(page, sum)
    ensures |page| >= PAGE_HEADER && Look(a + (page + b), |a|, sum) == Page(RowsOf(page), |page|)
  {
    PageAt(a, page, b, sum);
    Middle(a, page, b);
    FieldKept(a + (page + b), |a|, page, 0, 4);
    FieldKept(a + (page + b), |a|, page, 12, 4);
  }

  /** What follows the whole pages reads the same as on its own. */
  lemma {:induction false} LookTail(a: seq<byte>, tail: seq<byte>, sum: Sum)
    requires |tail| >= PAGE_HEADER
    ensures Look(a + tail, |a|, sum) == Look(tail, 0, sum)
  {
    var file := a + tail;
    SliceOfSum(a, tail, 0, 4);
    SliceOfSum(a, tail, 12, 16);
    SliceOfSum(a, tail, 16, 20);
    var total := PAGE_HEADER + Field(tail, 16, 4);
    if total <= |tail| { SliceOfSum(a, tail, 0, total); }
  }

  lemma SliceOfSum(a: seq<byte>, b: seq<byte>, i: nat, j: nat)
    requires i <= j <= |b|
    ensures (a + b)[|a| + i..|a| + j] == b[i..j]
  {
  }

  /** The bytes after the last whole page are not a page. */
  ghost predicate Broken(tail: seq<byte>, sum: Sum) { |tail| >= PAGE_HEADER ==> !Look(tail, 0, sum).Page? }

  /** What is left of a torn page is broken: it shows the magic, but is too short. */
  lemma {:induction false} TornBroken(tail: seq<byte>, page: seq<byte>, sum: Sum)
    requires Torn(tail, page, sum)
    ensures Broken(tail, sum) && (|tail| >= PAGE_HEADER ==> Look(tail, 0, sum).Damaged?)
  {
    if |tail| >= PAGE_HEADER {
      assert tail[0..0 + 4] == page[0..0 + 4];
      assert tail[16..16 + 4] == page[16..16 + 4];
    }
  }

  /** Whether recovery leaves a broken tail in the file. */
  predicate Stays(pages: seq<seq<byte>>, tail: seq<byte>, sum: Sum) {
    |tail| < PAGE_HEADER || (Look(tail, 0, sum).NoMagic? && Flat(pages) == [])
  }

  lemma {:induction false} EntriesNext(pages: seq<seq<byte>>, n: nat)
    requires n < |pages|
    ensures var front := EntriesOf(pages[..n]);
            EntriesOf(pages[..n + 1]) == front + [PageEntry(Flushed(front), RowsOf(pages[n]), |Flat(pages[..n])|)]
    ensures |Flat(pages[..n + 1])| == |Flat(pages[..n])| + |pages[n]|
  {
    assert pages[..n + 1][..n] == pages[..n];
  }

  // ── Opening any file ──

  /** What opening leaves: the bytes kept and the entries found. */
  datatype Outcome = Outcome(kept: seq<byte>, entries: seq<PageEntry>)

  /** Table::recover from an offset on: it stops at the first bytes that are not a page, and cuts there. */
  function Opened(file: seq<byte>, off: nat, sum: Sum, found: seq<PageEntry>): Outcome
    requires off <= |file|
    decreases |file| - off
  {
    if off + PAGE_HEADER > |file| then Outcome(file, found)
    else
      match Look(file, off, sum)
      case NoMagic => Outcome(if off > 0 then file[..off] else file, found)
      case Damaged => Outcome(file[..off], found)
      case Page(rows, total) => Opened(file, off + total, sum, found + [PageEntry(Flushed(found), rows, off)])
  }

  lemma {:induction false} OpenedNext(file: seq<byte>, off: nat, sum: Sum, found: seq<PageEntry>, rows: nat, next: nat, more: seq<PageEntry>)
    requires off + PAGE_HEADER <= |file| && off <= next && Look(file, off, sum) == Page(rows, next - off)
    requires more == found + [PageEntry(Flushed(found), rows, off)]
    ensures next <= |file| && Opened(file, off, sum, found) == Opened(file, next, sum, more)
  {
  }

  /** What stays of a file that stops being pages at the offset. */
  method CutAt(file: seq<byte>, off: nat, ghost sum: Sum, ghost entries: seq<PageEntry>, found: Found) returns (kept: seq<byte>)
    requires off + PAGE_HEADER <= |file| && Look(file, off, sum) == found && !found.Page?
    ensures Outcome(kept, entries) == Opened(file, off, sum, entries)
  {
    kept := file;
    if found.NoMagic? {
      if off > 0 { kept := file[..off]; }
    } else {
      kept := file[..off];
    }
  }

  /** The loop of Table::recover, on any file. */
  method Recover(file: seq<byte>, sum: Sum) returns (kept: seq<byte>, entries: seq<PageEntry>, rows: nat)
    ensures Outcome(kept, entries) == Opened(file, 0, sum, []) && rows == Flushed(entries)
  {
    kept, entries, rows := file, [], 0;
    var off: nat := 0;
    ghost var all := Opened(file, 0, sum, []);
    while off + PAGE_HEADER <= |file|
      invariant off <= |file| && kept == file && rows == Flushed(entries)
      invariant Opened(file, off, sum, entries) == all
      decreases |file| - off
    {
      var found := Look(file, off, sum);
      if !found.Page? {
        kept := CutAt(file, off, sum, entries, found);
        return;
      }
      var next, more := off + found.total, entries + [PageEntry(rows, found.rows, off)];
      OpenedNext(file, off, sum, entries, found.rows, next, more);
      entries, rows, off := more, rows + found.rows, next;
    }
  }

  /** The walk gets to the end of the whole pages. */
  lemma {:induction false} OpenedPast(pages: seq<seq<byte>>, tail: seq<byte>, n: nat, sum: Sum)
    requires AllSound(pages, sum) && n <= |pages|
    ensures |Flat(pages[..n])| <= |Flat(pages) + tail|
    ensures Opened(Flat(pages) + tail, 0, sum, []) == Opened(Flat(pages) + tail, |Flat(pages[..n])|, sum, EntriesOf(pages[..n]))
  {
    if n > 0 {
      OpenedPast(pages, tail, n - 1, sum);
      PastOne(pages, tail, n - 1, sum);
    } else {
      assert Flat(pages[..0]) == [] && EntriesOf(pages[..0]) == [];
    }
  }

  /** And over one page. */
  lemma {:induction false} PastOne(pages: seq<seq<byte>>, tail: seq<byte>, n: nat, sum: Sum)
    requires AllSound(pages, sum) && n < |pages|
    ensures var file, off, next := Flat(pages) + tail, |Flat(pages[..n])|, |Flat(pages[..n + 1])|;
            && off <= next <= |file|
            && Opened(file, off, sum, EntriesOf(pages[..n])) == Opened(file, next, sum, EntriesOf(pages[..n + 1]))
  {
    LookWhole(pages, tail, n, sum);
    EntriesNext(pages, n);
    OpenedNext(Flat(pages) + tail, |Flat(pages[..n])|, sum, EntriesOf(pages[..n]), RowsOf(pages[n]), |Flat(pages[..n + 1])|, EntriesOf(pages[..n + 1]));
  }

  /**
   A file with whole pages and a broken tail keeps its pages; the tail goes, unless it is shorter than a
   page header, or the file has no page at all.
   */
  lemma {:induction false} OpenedBroken(pages: seq<seq<byte>>, tail: seq<byte>, sum: Sum)
    requires AllSound(pages, sum) && Broken(tail, sum)
    ensures Opened(Flat(pages) + tail, 0, sum, []) ==
            Outcome(if Stays(pages, tail, sum) then Flat(pages) + tail else Flat(pages), EntriesOf(pages))
  {
    OpenedPast(pages, tail, |pages|, sum);
    assert pages[..|pages|] == pages;
    if |tail| >= PAGE_HEADER {
      LookTail(Flat(pages), tail, sum);
      assert (Flat(pages) + tail)[..|Flat(pages)|] == Flat(pages);
    }
  }

  lemma {:induction false} FrontContains(pages: seq<seq<byte>>, entries: seq<PageEntry>, kinds: seq<Kind>, cols: seq<seq<Cell>>)
    requires AllContain(pages, entries, kinds, cols) && pages != []
    ensures AllContain(pages[..|pages| - 1], entries[..|pages| - 1], kinds, cols)
  {
    var ps, es := pages[..|pages| - 1], entries[..|pages| - 1];
    forall i | 0 <= i < |ps| ensures Contains(ps[i], es[i], kinds, cols) {
      assert Contains(pages[i], entries[i], kinds, cols);
    }
  }

  lemma {:induction false} EntryRows(page: seq<byte>, e: PageEntry, kinds: seq<Kind>, cols: seq<seq<Cell>>)
    requires Contains(page, e, kinds, cols) && e.count > 0 && kinds != []
    ensures RowsOf(page) == e.count
  {
    EntryColumn(page, e, kinds, cols, 0);
  }

  /** Opening a table's file gives the entries back that the table had. */
  lemma {:induction false} SameEntries(pages: seq<seq<byte>>, entries: seq<PageEntry>, kinds: seq<Kind>, cols: seq<seq<Cell>>)
    requires Located(pages, entries) && Gapless(entries) && AllContain(pages, entries, kinds, cols) && kinds != []
    ensures EntriesOf(pages) == entries
  {
    if pages != [] {
      var n := |pages| - 1;
      assert Contains(pages[n], entries[n], kinds, cols);
      EntryRows(pages[n], entries[n], kinds, cols);
      FrontContains(pages, entries, kinds, cols);
      SameEntries(pages[..n], entries[..n], kinds, cols);
    }
  }

  lemma {:induction false} MagicBytes(s: seq<byte>)
    requires |s| == 4 && FromLe(s) == PAGE_MAGIC
    ensures s == [0x44, 0x57, 0x41, 0x52]
  {
    FromLeRoundTrip(s);
  }

  // ── Pages behind what was left ──

  /** Four bytes that begin with some, not all, of the magic are not the magic. */
  lemma {:induction false} ShiftedMagic(torn: seq<byte>, page: seq<byte>, rest: seq<byte>, sum: Sum)
    requires Torn(torn, page, sum) && 0 < |torn| < 4 && |rest| >= 4 && rest[0..4] == [0x44, 0x57, 0x41, 0x52]
    ensures Field(torn + rest, 0, 4) != PAGE_MAGIC
  {
    MagicBytes(page[0..0 + 4]);
    var four := (torn + rest)[0..0 + 4];
    assert four[0] == page[0..0 + 4][0] && four[|torn|] == rest[0..4][0];
    if FromLe(four) == PAGE_MAGIC { MagicBytes(four); }
  }

  /** A file of pages begins with the magic, and has more than a header. */
  lemma {:induction false} FirstMagic(pages: seq<seq<byte>>, sum: Sum)
    requires AllSound(pages, sum) && pages != []
    ensures |Flat(pages)| >= PAGE_HEADER && Flat(pages)[0..4] == [0x44, 0x57, 0x41, 0x52]
  {
    SoundAt(pages, 0, sum);
    SplitAt(pages, 0);
    assert pages[..0] == [];
    MagicBytes(pages[0][0..0 + 4]);
    assert Flat(pages)[0..4] == pages[0][0..0 + 4];
  }

  /** Where the header of the torn page goes on in what follows it. */
  lemma {:induction false} MixedFields(torn: seq<byte>, page: seq<byte>, rest: seq<byte>, at: nat)
    requires torn < page && at + 4 <= |torn + rest| && at + 4 <= |page|
    ensures at + 4 <= |torn| ==> Field(torn + rest, at, 4) == Field(page, at, 4)
    ensures |torn| <= at ==> Field(torn + rest, at, 4) == Field(rest, at - |torn|, 4)
  {
    var s := torn + rest;
    if at + 4 <= |torn| { assert s[at..at + 4] == page[at..at + 4]; }
    if |torn| <= at { assert s[at..at + 4] == rest[at - |torn|..at - |torn| + 4]; }
  }

  /**
   Pages behind the leftover of a torn page.  The leftover and what follows it do not make a page if and
   only if the leftover is shorter than the magic, or the size in the mixed header goes beyond the file,
   or the checksum in it is not that of the mixed page.
   */
  lemma {:induction false} LeftoverExact(torn: seq<byte>, page: seq<byte>, later: seq<seq<byte>>, sum: Sum)
    requires Torn(torn, page, sum) && 0 < |torn| < PAGE_HEADER && AllSound(later, sum) && later != []
    ensures var s := torn + Flat(later);
            && |s| >= PAGE_HEADER
            && (Broken(s, sum) <==>
                  var total := PAGE_HEADER + Field(s, 16, 4);
                  |torn| < 4 || total > |s| || Field(s, 8, 4) != sum(Unsealed(s[..total])))
            && (|torn| < 4 <==> Look(s, 0, sum).NoMagic?)
            && (|torn| >= 20 ==> Field(s, 16, 4) == Field(page, 16, 4))
            && (|torn| >= 12 ==> Field(s, 8, 4) == Field(page, 8, 4))
  {
    var s := torn + Flat(later);
    FirstMagic(later, sum);
    if |torn| < 4 { ShiftedMagic(torn, page, Flat(later), sum); }
    MixedFields(torn, page, Flat(later), 0);
    MixedFields(torn, page, Flat(later), 8);
    MixedFields(torn, page, Flat(later), 16);
    var total := PAGE_HEADER + Field(s, 16, 4);
    if total <= |s| {
      assert s[0..0 + total] == s[..total];
      SliceOfSlice(s, 0, total, 0, 4);
      SliceOfSlice(s, 0, total, 8, 4);
    }
  }

  /** Entries are only ever added. */
  lemma {:induction false} OpenedMore(file: seq<byte>, off: nat, sum: Sum, found: seq<PageEntry>)
    requires off <= |file|
    ensures |Opened(file, off, sum, found).entries| >= |found|
    decreases |file| - off
  {
    if off + PAGE_HEADER <= |file| {
      match Look(file, off, sum)
      case NoMagic =>
      case Damaged =>
      case Page(rows, total) => OpenedMore(file, off + total, sum, found + [PageEntry(Flushed(found), rows, off)]);
    }
  }

  lemma {:induction false} EntriesCount(pages: seq<seq<byte>>)
    ensures |EntriesOf(pages)| == |pages|
  {
    if pages != [] { EntriesCount(pages[..|pages| - 1]); }
  }

  /**
   A crash left part of a page header in the file, and any number of pages were written behind it.  The
   next opening finds the pages before it and no other if and only if the leftover does not happen to
   make a page with what follows; and then it removes the later pages from the file, the one exception
   being a file without a page before a leftover of one to three bytes, which stays and shows no rows.
   */
  lemma {:induction false} PagesRemoved(pages: seq<seq<byte>>, torn: seq<byte>, page: seq<byte>, later: seq<seq<byte>>, sum: Sum)
    requires AllSound(pages, sum) && AllSound(later, sum) && later != [] && Torn(torn, page, sum) && 0 < |torn| < PAGE_HEADER
    ensures var tail := torn + Flat(later);
            var file := Flat(pages) + tail;
            && (Opened(file, 0, sum, []).entries == EntriesOf(pages) <==> Broken(tail, sum))
            && (Broken(tail, sum) ==> Opened(file, 0, sum, []).kept == if pages == [] && |torn| < 4 then file else Flat(pages))
  {
    var tail := torn + Flat(later);
    LeftoverExact(torn, page, later, sum);
    if Broken(tail, sum) {
      OpenedBroken(pages, tail, sum);
      NoPages(pages, sum);
    } else {
      OneMore(pages, tail, sum);
    }
  }

  lemma {:induction false} NoPages(pages: seq<seq<byte>>, sum: Sum)
    requires AllSound(pages, sum)
    ensures Flat(pages) == [] <==> pages == []
  {
    if pages != [] { FirstMagic(pages, sum); }
  }

  lemma {:induction false} OneAdded(file: seq<byte>, off: nat, sum: Sum, found: seq<PageEntry>, rows: nat, total: nat)
    requires off + PAGE_HEADER <= |file| && Look(file, off, sum) == Page(rows, total)
    ensures |Opened(file, off, sum, found).entries| > |found|
  {
    var more := found + [PageEntry(Flushed(found), rows, off)];
    OpenedNext(file, off, sum, found, rows, off + total, more);
    OpenedMore(file, off + total, sum, more);
  }

  /** A tail that begins with a page gives at least one entry more. */
  lemma {:induction false} OneMore(pages: seq<seq<byte>>, tail: seq<byte>, sum: Sum)
    requires AllSound(pages, sum) && !Broken(tail, sum)
    ensures Opened(Flat(pages) + tail, 0, sum, []).entries != EntriesOf(pages)
  {
    var file, off := Flat(pages) + tail, |Flat(pages)|;
    var front := EntriesOf(pages);
    OpenedPast(pages, tail, |pages|, sum);
    assert pages[..|pages|] == pages;
    LookTail(Flat(pages), tail, sum);
    var p := Look(file, off, sum);
    OneAdded(file, off, sum, front, p.rows, p.total);
  }

  /** One to three bytes: whatever the later pages are, none of them is found, and they are removed. */
  lemma {:induction false} PagesLost(pages: seq<seq<byte>>, torn: seq<byte>, page: seq<byte>, later: seq<seq<byte>>, sum: Sum)
    requires AllSound(pages, sum) && AllSound(later, sum) && later != [] && Torn(torn, page, sum) && 0 < |torn| < 4
    ensures var file := Flat(pages) + (torn + Flat(later));
            Opened(file, 0, sum, []) == Outcome(if pages == [] then file else Flat(pages), EntriesOf(pages))
    ensures ReadPage(Flat(pages) + (torn + Flat(later)), |Flat(pages)|, sum).None?
  {
    var tail := torn + Flat(later);
    LeftoverExact(torn, page, later, sum);
    PagesRemoved(pages, torn, page, later, sum);
    LookTail(Flat(pages), tail, sum);
    NoMagicNoPage(Flat(pages) + tail, |Flat(pages)|, sum);
  }

  lemma {:induction false} NoMagicNoPage(file: seq<byte>, off: nat, sum: Sum)
    requires off + PAGE_HEADER <= |file| && Field(file, off, 4) != PAGE_MAGIC
    ensures ReadPage(file, off, sum).None?
  {
    var total := PAGE_HEADER + Field(file, off + 16, 4);
    if off + total <= |file| { SliceOfSlice(file, off, off + total, 0, 4); }
  }

  /** A file that begins without the magic shows no page, whatever is written behind it. */
  lemma {:induction false} NeverFound(junk: seq<byte>, more: seq<byte>, sum: Sum)
    requires |junk| >= PAGE_HEADER && Look(junk, 0, sum).NoMagic?
    ensures Opened(junk + more, 0, sum, []) == Outcome(junk + more, [])
  {
    assert (junk + more)[0..0 + 4] == junk[0..0 + 4];
  }
}
