/**
 * A child operator (`OpIterator`) as seen by its parent: a fixed sequence of tuples, a
 * position in it and an open/closed flag. Its `hasNext`/`next` lookahead is a test on the
 * position and a step past the tuple at it.
 */
module Cursors {
  import opened Schemas
  import opened Tuples

  class Cursor {
    const schema: TupleDesc
    const rows: seq<Row>
    var pos: nat
    var isOpen: bool
    /** The tuples already returned and those still to be returned, in order. */
    ghost var done: seq<Row>
    ghost var rest: seq<Row>

    ghost predicate Valid()
      reads this
    {
      rows == done + rest && pos == |done| && AllConform(rows, schema)
    }

    constructor (schema: TupleDesc, rows: seq<Row>)
      requires AllConform(rows, schema)
      ensures Valid() && this.schema == schema && this.rows == rows && !isOpen && pos == 0
    {
      this.schema := schema;
      this.rows := rows;
      pos := 0;
      isOpen := false;
      done := [];
      rest := rows;
    }

    /** The tuples still to be returned. */
    ghost function Rest(): seq<Row>
      reads this`rest
    {
      rest
    }

    method Open()
      requires Valid()
      modifies this
      ensures Valid() && isOpen && Rest() == rows
    {
      isOpen := true;
      pos := 0;
      done := [];
      rest := rows;
    }

    method Close()
      requires Valid()
      modifies this
      ensures Valid() && !isOpen && pos == old(pos) && Rest() == old(Rest())
    {
      isOpen := false;
    }

    /** `rewind()`: back to the first tuple, so the same sequence is produced again. */
    method Rewind()
      requires Valid()
      modifies this
      ensures Valid() && isOpen && Rest() == rows
    {
      Close();
      Open();
    }

    function HasNext(): bool
      reads this`pos, this`isOpen
      requires isOpen
    {
      pos < |rows|
    }

    method Next() returns (t: Row)
      requires Valid() && isOpen && HasNext()
      modifies this
      ensures Valid() && isOpen
      ensures old(Rest()) == [t] + Rest()
      ensures t == rows[old(pos)] && pos == old(pos) + 1 && Conforms(t, schema)
    {
      t := rows[pos];
      pos := pos + 1;
      assert rest == [t] + rest[1..];
      done := done + [t];
      rest := rest[1..];
    }
  }
}
