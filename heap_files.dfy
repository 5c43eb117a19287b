/**
 * HeapFile: a table stored as a sequence of fixed-size pages, and its page-by-page tuple
 * cursor `HeapIterator` (src/java/simpledb/storage/HeapFile.java). The buffer pool is not
 * modelled: the file's pages are given as the tuple lists their `HeapPage.iterator()` yields.
 */
module HeapFiles {
  import opened Wrappers
  import opened Primitives
  import opened PageIds
  import opened Tuples

  /** Java's `(int)` narrowing of a `long`: the low 32 bits, read as two's complement. */
  function ToInt32(x: int): (r: int32)
    ensures INT_MIN <= x <= INT_MAX ==> r == x
    ensures (r - x) % 0x1_0000_0000 == 0
  {
    var m := x % 0x1_0000_0000;
    if m <= INT_MAX then m else m - 0x1_0000_0000
  }

  /** `numPages()`: the number of whole pages in a file of `fileLength` bytes, cast to `int`. */
  /** Below 2^31 pages the count is exact: the whole pages fit, one more would not. */
  function NumPages(fileLength: nat, pageSize: nat): (n: int32)
    requires pageSize > 0
    ensures fileLength / pageSize <= INT_MAX ==> 0 <= n && n * pageSize <= fileLength < (n + 1) * pageSize
  {
    var q := fileLength / pageSize;
    assert fileLength == q * pageSize + fileLength % pageSize;
    assert (q + 1) * pageSize == q * pageSize + pageSize;
    ToInt32(q)
  }

  /** `readPage`'s seek position: the page number times the page size, computed as a `long`. */
  function PageOffset(pageNumber: int32, pageSize: nat): (off: int)
    ensures pageSize > 0 ==> off % pageSize == 0 && off / pageSize == pageNumber
  {
    if pageSize > 0 then
      (DivMod(pageNumber, 0, pageSize); pageNumber * pageSize)
    else
      pageNumber * pageSize
  }

  /** Every page below `numPages()` is read entirely from inside the file. */
  lemma PageWithinFile(fileLength: nat, pageSize: nat, p: int32)
    requires pageSize > 0 && fileLength / pageSize <= INT_MAX
    requires 0 <= p < NumPages(fileLength, pageSize)
    ensures 0 <= PageOffset(p, pageSize) && PageOffset(p, pageSize) + pageSize <= fileLength
  {
    var n := NumPages(fileLength, pageSize);
    assert p + 1 <= n;
    MulMono(p + 1, n, pageSize);
  }

  lemma MulMono(a: nat, b: nat, c: nat)
    requires a <= b
    ensures a * c <= b * c
  {
  }

  /** The pages tile the file: byte `x` lies in page `p` exactly when `x / pageSize == p`. */
  lemma PageOfOffset(pageSize: nat, p: int32, x: nat)
    requires pageSize > 0
    ensures PageOffset(p, pageSize) <= x < PageOffset(p, pageSize) + pageSize <==> x / pageSize == p
  {
    var q := x / pageSize;
    var r := x % pageSize;
    assert x == q * pageSize + r && 0 <= r < pageSize;
    if p < q {
      MulMonoInt(p + 1, q, pageSize);
    } else if q < p {
      MulMonoInt(q + 1, p, pageSize);
    }
  }

  lemma MulMonoInt(a: int, b: int, c: nat)
    requires a <= b
    ensures a * c <= b * c
  {
  }

  /** The tuples of page `p`; a page past the end of the file reads as an empty page. */
  function PageAt(pages: seq<seq<Row>>, p: int): seq<Row>
  {
    if 0 <= p < |pages| then pages[p] else []
  }

  /** The tuples of pages `k`, `k + 1`, ..., in page order and within-page order. */
  function FlattenFrom(pages: seq<seq<Row>>, k: nat): seq<Row>
    decreases |pages| - k
  {
    if k >= |pages| then [] else pages[k] + FlattenFrom(pages, k + 1)
  }

  /** Nothing is left exactly when every remaining page is empty. */
  lemma {:induction false} FlattenEmpty(pages: seq<seq<Row>>, k: nat)
    ensures FlattenFrom(pages, k) == [] <==> forall p | k <= p < |pages| :: pages[p] == []
    decreases |pages| - k
  {
    if k < |pages| {
      FlattenEmpty(pages, k + 1);
    }
  }

  /** A tuple is yielded exactly when it is on one of the remaining pages. */
  lemma {:induction false} FlattenMember(pages: seq<seq<Row>>, k: nat, t: Row)
    ensures t in FlattenFrom(pages, k) <==> exists p | k <= p < |pages| :: t in pages[p]
    decreases |pages| - k
  {
    if t in FlattenFrom(pages, k) {
      var p := FlattenSource(pages, k, t);
    }
    if exists p | k <= p < |pages| :: t in pages[p] {
      var p :| k <= p < |pages| && t in pages[p];
      FlattenHas(pages, k, p, t);
    }
  }

  /** The page a yielded tuple comes from. */
  lemma {:induction false} FlattenSource(pages: seq<seq<Row>>, k: nat, t: Row) returns (p: nat)
    requires t in FlattenFrom(pages, k)
    ensures k <= p < |pages| && t in pages[p]
    decreases |pages| - k
  {
    if t in pages[k] {
      p := k;
    } else {
      p := FlattenSource(pages, k + 1, t);
    }
  }

  /** Every tuple on a remaining page is yielded. */
  lemma {:induction false} FlattenHas(pages: seq<seq<Row>>, k: nat, p: nat, t: Row)
    requires k <= p < |pages| && t in pages[p]
    ensures t in FlattenFrom(pages, k)
    decreases |pages| - k
  {
    if p != k {
      FlattenHas(pages, k + 1, p, t);
    }
  }

  /** The number of tuples yielded is the total over the remaining pages. */
  function TupleCount(pages: seq<seq<Row>>, k: nat): nat
    decreases |pages| - k
  {
    if k >= |pages| then 0 else |pages[k]| + TupleCount(pages, k + 1)
  }

  lemma {:induction false} FlattenLength(pages: seq<seq<Row>>, k: nat)
    ensures |FlattenFrom(pages, k)| == TupleCount(pages, k)
    decreases |pages| - k
  {
    if k < |pages| {
      FlattenLength(pages, k + 1);
    }
  }

  /**
   * `HeapIterator`: `it` is the current page's tuple iterator (the tuples it has still to
   * return, `None` for `null`) and `curPageId` the page it came from.
   */
  class HeapIterator {
    const tableId: int32
    /** The length of the file and the page size; `numPages()` is computed from them. */
    const fileLength: nat
    const pageSize: nat
    /** The file's pages as the buffer pool returns them, one per page `numPages()` counts. */
    const pages: seq<seq<Row>>
    var it: Option<seq<Row>>
    var curPageId: Option<HeapPageId>

    constructor (tableId: int32, fileLength: nat, pageSize: nat, pages: seq<seq<Row>>)
      requires pageSize > 0 && fileLength / pageSize <= INT_MAX
      requires |pages| == NumPages(fileLength, pageSize)
      ensures Valid() && this.tableId == tableId && this.pages == pages
      ensures this.fileLength == fileLength && this.pageSize == pageSize
      ensures it.None? && curPageId.None?
    {
      this.tableId := tableId;
      this.fileLength := fileLength;
      this.pageSize := pageSize;
      this.pages := pages;
      it := None;
      curPageId := None;
    }

    ghost predicate Valid()
      reads this
    {
      && pageSize > 0 && fileLength / pageSize <= INT_MAX
      && |pages| == NumPages(fileLength, pageSize)
      && (it.Some? ==> curPageId.Some?)
      && (curPageId.Some? ==>
            curPageId.value.tableId == tableId && 0 <= curPageId.value.pageNumber
            && (curPageId.value.pageNumber < |pages| || curPageId.value.pageNumber == 0))
    }

    /** What the following `readNext()` calls yield, up to the first `null`. */
    ghost function Remaining(): seq<Row>
      reads this
    {
      (if it.Some? then it.value else [])
      + (if curPageId.Some? && curPageId.value.pageNumber >= 0
         then FlattenFrom(pages, curPageId.value.pageNumber + 1) else [])
    }

    /** `open()`: page 0 of this table, whether or not the file has a page. */
    method Open()
      requires Valid()
      modifies this
      ensures Valid()
      ensures curPageId == Some(HeapPageId(tableId, 0)) && it == Some(PageAt(pages, 0))
      ensures Remaining() == FlattenFrom(pages, 0)
    {
      curPageId := Some(HeapPageId(tableId, 0));
      it := Some(PageAt(pages, 0));
    }

    /**
     * `readNext()`: the next tuple of the current page, moving on past empty pages;
     * `None` once no later page holds a tuple, and then the cursor is spent.
     */
    method ReadNext() returns (r: Option<Row>)
      requires Valid()
      modifies this
      ensures Valid()
      ensures r.None? <==> old(Remaining()) == []
      ensures r.Some? ==> old(Remaining()) == [r.value] + Remaining()
      ensures r.None? ==> it.None? && curPageId.None?
    {
      if it.Some? && it.value == [] {
        it := None;
      }
      while it.None? && curPageId.Some?
        invariant Valid()
        invariant Remaining() == old(Remaining())
        invariant it.Some? ==> it.value != []
        decreases Unvisited()
      {
        NextPage();
      }
      if it.None? {
        return None;
      }
      var t := TakeFromPage();
      return Some(t);
    }

    /** `it.next()` on a page iterator that has a tuple left. */
    method TakeFromPage() returns (t: Row)
      requires Valid() && it.Some? && it.value != []
      modifies this
      ensures Valid() && curPageId == old(curPageId)
      ensures old(Remaining()) == [t] + Remaining()
    {
      var page := it.value;
      t := page[0];
      it := Some(page[1..]);
      assert page == [page[0]] + page[1..];
    }

    /** Pages not yet visited: the loop's measure in `readNext()`. */
    function Unvisited(): int
      reads this
    {
      if curPageId.Some? then |pages| + 1 - curPageId.value.pageNumber else 0
    }

    /**
     * One turn of `readNext()`'s loop: the next page if there is one, keeping its iterator
     * only when the page has a tuple; past the last page the page id becomes `null`.
     */
    method NextPage()
      requires Valid() && it.None? && curPageId.Some?
      modifies this
      ensures Valid() && Remaining() == old(Remaining())
      ensures it.Some? ==> it.value != []
      ensures 0 <= Unvisited() < old(Unvisited())
      ensures old(curPageId.value.pageNumber) + 1 < |pages| ==>
        curPageId == Some(HeapPageId(tableId, old(curPageId.value.pageNumber) + 1))
        && it == (if pages[old(curPageId.value.pageNumber) + 1] == [] then None
                  else Some(pages[old(curPageId.value.pageNumber) + 1]))
      ensures old(curPageId.value.pageNumber) + 1 >= |pages| ==> curPageId.None? && it.None?
    {
      var pn := curPageId.value.pageNumber;
      if pn + 1 >= NumPages(fileLength, pageSize) {
        curPageId := None;
      } else {
        curPageId := Some(HeapPageId(tableId, pn + 1));
        it := Some(PageAt(pages, pn + 1));
        assert FlattenFrom(pages, pn + 1) == pages[pn + 1] + FlattenFrom(pages, pn + 2);
        if it.value == [] {
          it := None;
        }
      }
    }

    /** `close()`: both the page iterator and the page id are dropped. */
    method Close()
      requires Valid()
      modifies this
      ensures Valid() && it.None? && curPageId.None? && Remaining() == []
    {
      it := None;
      curPageId := None;
    }

    /** `rewind()` is `close()` then `open()`: the whole file is read again. */
    method Rewind()
      requires Valid()
      modifies this
      ensures Valid()
      ensures curPageId == Some(HeapPageId(tableId, 0)) && it == Some(PageAt(pages, 0))
      ensures Remaining() == FlattenFrom(pages, 0)
    {
      Close();
      Open();
    }
  }
}
