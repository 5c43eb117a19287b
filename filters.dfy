/** Filter: relational select over one child (src/java/simpledb/execution/Filter.java). */
module Filters {
  import opened Wrappers
  import opened Schemas
  import opened Tuples
  import opened Sequences
  import opened Cursors

  /** The tuples a filter with predicate `p` emits from `rows`: those passing `p`, in order. */
  function Selected(p: Row -> bool, rows: seq<Row>): seq<Row>
  {
    Keep(p, rows)
  }

  /** A full run emits only child tuples that pass `p`, and every passing one, with its multiplicity. */
  lemma SelectedIsSelection(p: Row -> bool, rows: seq<Row>)
    ensures forall t | t in Selected(p, rows) :: p(t) && t in rows
    ensures forall t | p(t) :: multiset(Selected(p, rows))[t] == multiset(rows)[t]
  {
    KeepSound(p, rows);
    KeepComplete(p, rows);
  }

  class Filter {
    /** The `Predicate`, as a pure test on a tuple. */
    const p: Row -> bool
    var child: Cursor

    constructor (p: Row -> bool, child: Cursor)
      ensures this.p == p && this.child == child
    {
      this.p := p;
      this.child := child;
    }

    ghost predicate Valid()
      reads this, child
    {
      child.Valid()
    }

    /** What the rest of the run emits: the child's remaining tuples that pass `p`. */
    ghost function Remaining(): seq<Row>
      reads this, child
      requires Valid()
    {
      Selected(p, child.Rest())
    }

    /** `getTupleDesc()`: the child's schema, unchanged. */
    function GetTupleDesc(): (td: TupleDesc)
      reads this
      ensures td == child.schema
    {
      child.schema
    }

    method Open()
      requires Valid()
      modifies child
      ensures Valid() && child.isOpen
      ensures Remaining() == Selected(p, child.rows)
    {
      child.Open();
    }

    method Close()
      requires Valid()
      modifies child
      ensures Valid() && !child.isOpen
    {
      child.Close();
    }

    /** `rewind()` is `close()` then `open()`: the run starts over from the child's first tuple. */
    method Rewind()
      requires Valid()
      modifies child
      ensures Valid() && child.isOpen
      ensures Remaining() == Selected(p, child.rows)
    {
      Close();
      Open();
    }

    /**
     * `fetchNext()`: the first remaining child tuple that passes `p`, dropping the rejected
     * ones before it; `None` only once the child is exhausted.
     */
    method FetchNext() returns (r: Option<Row>)
      requires Valid() && child.isOpen
      modifies child
      ensures Valid() && child.isOpen
      ensures r.None? <==> old(Remaining()) == []
      ensures r.Some? ==> old(Remaining()) == [r.value] + Remaining() && p(r.value)
      ensures r.None? ==> !child.HasNext()
    {
      while child.HasNext()
        invariant Valid() && child.isOpen
        invariant Remaining() == old(Remaining())
        decreases |child.rows| - child.pos
      {
        var t := child.Next();
        if p(t) {
          return Some(t);
        }
      }
      return None;
    }

    /** `getChildren()`: exactly the one child. */
    function GetChildren(): (cs: seq<Cursor>)
      reads this
      ensures cs == [child]
    {
      [child]
    }

    /** `setChildren(cs)`: the first element becomes the child. */
    method SetChildren(cs: seq<Cursor>)
      requires |cs| >= 1
      modifies this
      ensures child == cs[0] && GetChildren() == [cs[0]]
    {
      child := cs[0];
    }
  }
}
