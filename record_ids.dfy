/** RecordId: a tuple's location, `(pid, tupleNumber)` (src/java/simpledb/storage/RecordId.java). */
module RecordIds {
  import opened Wrappers
  import opened Primitives
  import opened PageIds

  /** `getPageId()` and `getTupleNumber()` are the destructors; `pid` may be null. */
  datatype RecordId = RecordId(pid: Option<PageId>, tupleNumber: int32)

  /** `RecordId.equals`: equal tuple numbers and null-safe equal page ids. */
  function Equals(a: RecordId, b: RecordId): (r: bool)
    ensures r <==> a == b
  {
    a.tupleNumber == b.tupleNumber && a.pid == b.pid
  }
}
