/**
 * Page identifiers: HeapPageId (src/java/simpledb/storage/HeapPageId.java) and the
 * B+Tree page id it shares the PageId interface with.
 */
module PageIds {
  import opened Primitives

  /** A heap page: `(tableId, pageNumber)`, both final. */
  datatype HeapPageId = HeapPageId(tableId: int32, pageNumber: int32)

  /** B+Tree page categories; only their distinctness is relied on. */
  const ROOT_PTR: int32 := 0
  const INTERNAL: int32 := 1
  const LEAF: int32 := 2
  const HEADER: int32 := 3

  /** A B+Tree page: `(tableId, pageNumber, category)`. */
  datatype BTreePageId = BTreePageId(tableId: int32, pageNumber: int32, category: int32)

  /** The `PageId` interface: ids of different classes are never equal. */
  datatype PageId = HeapPage(heap: HeapPageId) | BTreePage(btree: BTreePageId)

  /** `HeapPageId.equals`: both the table id and the page number match. */
  function HeapPageIdEquals(a: HeapPageId, b: HeapPageId): (r: bool)
    ensures r <==> a == b
  {
    a.tableId == b.tableId && a.pageNumber == b.pageNumber
  }

  /** `serialize()`: the two constructor arguments, in order. */
  function Serialize(id: HeapPageId): (data: seq<int32>)
    ensures |data| == 2
    ensures HeapPageId(data[0], data[1]) == id
  {
    [id.tableId, id.pageNumber]
  }

  /** Serialization is injective: distinct ids never share an on-disk form. */
  lemma SerializeInjective(a: HeapPageId, b: HeapPageId)
    ensures Serialize(a) == Serialize(b) <==> a == b
  {
    if Serialize(a) == Serialize(b) {
      assert Serialize(a)[0] == Serialize(b)[0] && Serialize(a)[1] == Serialize(b)[1];
    }
  }
}
