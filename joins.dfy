/** Join: the nested-loop join (src/java/simpledb/execution/Join.java). */
module Joins {
  import opened Wrappers
  import opened Schemas
  import opened Tuples
  import opened Sequences
  import opened Cursors

  /**
   * A `JoinPredicate`: the two field indices it names and its test on a (left, right) pair,
   * which compares those fields with its operator.
   */
  datatype JoinPredicate = JoinPredicate(field1: nat, field2: nat, test: (Row, Row) -> bool)

  /** The right tuples that `test` pairs with `l`, in order. */
  function Matching(test: (Row, Row) -> bool, l: Row, rs: seq<Row>): seq<Row>
  {
    Keep(r => test(l, r), rs)
  }

  /** `[concat(l, r) | r in rs]`. */
  function Pairs(desc: TupleDesc, l: Row, rs: seq<Row>): (out: seq<Row>)
    ensures |out| == |rs|
    decreases |rs|
  {
    if rs == [] then [] else [Concat(desc, l, rs[0])] + Pairs(desc, l, rs[1..])
  }

  /** The pairs of `l`, when the first right tuple is split off. */
  lemma PairsCons(desc: TupleDesc, l: Row, r: Row, rs: seq<Row>)
    ensures Pairs(desc, l, [r] + rs) == [Concat(desc, l, r)] + Pairs(desc, l, rs)
  {
    assert ([r] + rs)[0] == r;
    assert ([r] + rs)[1..] == rs;
  }

  /**
   * The output of a full nested-loop run: for each left tuple in order, for each right
   * tuple in order that `test` accepts with it, their concatenation.
   */
  function NestedLoop(test: (Row, Row) -> bool, desc: TupleDesc, ls: seq<Row>, rs: seq<Row>): seq<Row>
    decreases |ls|
  {
    if ls == [] then []
    else Pairs(desc, ls[0], Matching(test, ls[0], rs)) + NestedLoop(test, desc, ls[1..], rs)
  }

  /** The nested loop over a split left side is the two runs one after the other. */
  lemma {:induction false} NestedLoopAppend(test: (Row, Row) -> bool, desc: TupleDesc,
                                            a: seq<Row>, b: seq<Row>, rs: seq<Row>)
    ensures NestedLoop(test, desc, a + b, rs) == NestedLoop(test, desc, a, rs) + NestedLoop(test, desc, b, rs)
    decreases |a|
  {
    if a == [] {
      assert a + b == b;
    } else {
      assert (a + b)[0] == a[0];
      assert (a + b)[1..] == a[1..] + b;
      NestedLoopAppend(test, desc, a[1..], b, rs);
    }
  }

  /** Each output tuple is a left tuple's slots followed by a matching right tuple's slots. */
  lemma {:induction false} NestedLoopSound(test: (Row, Row) -> bool, desc: TupleDesc, ls: seq<Row>, rs: seq<Row>)
    ensures forall o | o in NestedLoop(test, desc, ls, rs) ::
      exists l, r | l in ls && r in rs :: test(l, r) && o == Concat(desc, l, r)
    decreases |ls|
  {
    if ls != [] {
      NestedLoopSound(test, desc, ls[1..], rs);
      var l := ls[0];
      var ms := Matching(test, l, rs);
      KeepSound(r => test(l, r), rs);
      forall o | o in Pairs(desc, l, ms)
        ensures exists r | r in rs :: test(l, r) && o == Concat(desc, l, r)
      {
        var k := PairsIndex(desc, l, ms, o);
        assert ms[k] in ms;
      }
    }
  }

  lemma {:induction false} PairsIndex(desc: TupleDesc, l: Row, rs: seq<Row>, o: Row) returns (k: nat)
    requires o in Pairs(desc, l, rs)
    ensures k < |rs| && o == Concat(desc, l, rs[k])
    decreases |rs|
  {
    if o == Concat(desc, l, rs[0]) {
      k := 0;
    } else {
      k := PairsIndex(desc, l, rs[1..], o);
      k := k + 1;
    }
  }

  /** With a predicate that accepts every pair the join is the full cross product. */
  lemma {:induction false} CrossProductSize(test: (Row, Row) -> bool, desc: TupleDesc, ls: seq<Row>, rs: seq<Row>)
    requires forall l, r | l in ls && r in rs :: test(l, r)
    ensures |NestedLoop(test, desc, ls, rs)| == |ls| * |rs|
    decreases |ls|
  {
    if ls != [] {
      var l := ls[0];
      KeepAll(r => test(l, r), rs);
      CrossProductSize(test, desc, ls[1..], rs);
      assert |ls| * |rs| == |rs| + (|ls| - 1) * |rs|;
    }
  }

  class Join {
    const p: JoinPredicate
    const child1: Cursor
    const child2: Cursor
    /** The output schema, fixed at construction. */
    const desc: TupleDesc
    /** The current left tuple; `None` once the left child is exhausted. */
    var cur: Option<Row>

    constructor (p: JoinPredicate, child1: Cursor, child2: Cursor)
      requires child1 != child2 && child1.Valid() && child2.Valid()
      ensures Valid() && this.p == p && this.child1 == child1 && this.child2 == child2
      ensures desc == Merge(child1.schema, child2.schema) && cur.None?
    {
      this.p := p;
      this.child1 := child1;
      this.child2 := child2;
      desc := Merge(child1.schema, child2.schema);
      cur := None;
    }

    ghost predicate Valid()
      reads this, child1, child2
    {
      && child1 != child2 && child1.Valid() && child2.Valid()
      && desc == Merge(child1.schema, child2.schema)
      && (cur.Some? ==> Conforms(cur.value, child1.schema))
    }

    /** Open, with `cur` absent only once the left child is used up. */
    ghost predicate Running()
      reads this, child1, child2
    {
      child1.isOpen && child2.isOpen && (cur.None? ==> !child1.HasNext())
    }

    /**
     * What the rest of the run emits: the pairs of `cur` with the rest of the right child,
     * then the full nested loop over the rest of the left child.
     */
    ghost function Remaining(): seq<Row>
      reads this, child1, child2
      requires Valid()
    {
      if cur.None? then []
      else Pairs(desc, cur.value, Matching(p.test, cur.value, child2.Rest()))
           + NestedLoop(p.test, desc, child1.Rest(), child2.rows)
    }

    /** `getTupleDesc()`: the merge of the two child schemas. */
    function GetTupleDesc(): (td: TupleDesc)
      ensures NumFields(td) == NumFields(child1.schema) + NumFields(child2.schema)
      ensures forall i | 0 <= i < NumFields(td) ::
        td.items[i] == if i < NumFields(child1.schema) then child1.schema.items[i]
                       else child2.schema.items[i - NumFields(child1.schema)]
    {
      Merge(child1.schema, child2.schema)
    }

    /** `getJoinField1Name()`: the left schema's name at the predicate's first field. */
    function GetJoinField1Name(): (r: Result<Option<string>, SchemaError>)
      ensures r.Success? <==> p.field1 < NumFields(child1.schema)
      ensures r.Success? ==> r.value == child1.schema.items[p.field1].fieldName
    {
      GetFieldName(child1.schema, p.field1)
    }

    /** `getJoinField2Name()`: the right schema's name at the predicate's second field. */
    function GetJoinField2Name(): (r: Result<Option<string>, SchemaError>)
      ensures r.Success? <==> p.field2 < NumFields(child2.schema)
      ensures r.Success? ==> r.value == child2.schema.items[p.field2].fieldName
    {
      GetFieldName(child2.schema, p.field2)
    }

    /** `open()`: opens both children and takes the first left tuple, if any. */
    method Open()
      requires Valid()
      modifies this, child1, child2
      ensures Valid() && Running()
      ensures cur.None? <==> child1.rows == []
      ensures Remaining() == NestedLoop(p.test, desc, child1.rows, child2.rows)
    {
      child1.Open();
      child2.Open();
      if child1.HasNext() {
        var t := child1.Next();
        cur := Some(t);
      } else {
        cur := None;
      }
    }

    /** `close()`: closes both children and drops `cur`. */
    method Close()
      requires Valid()
      modifies this, child1, child2
      ensures Valid() && !child1.isOpen && !child2.isOpen && cur.None?
    {
      child1.Close();
      child2.Close();
      cur := None;
    }

    /** `rewind()` is `close()` then `open()`: the run starts over. */
    method Rewind()
      requires Valid()
      modifies this, child1, child2
      ensures Valid() && Running()
      ensures Remaining() == NestedLoop(p.test, desc, child1.rows, child2.rows)
    {
      Close();
      Open();
    }

    /** `getRightTuple()`: the next right tuple that the predicate pairs with `cur`. */
    method GetRightTuple() returns (right: Option<Row>)
      requires Valid() && Running() && cur.Some?
      modifies child2
      ensures Valid() && Running()
      ensures right.Some? ==>
        old(Matching(p.test, cur.value, child2.Rest())) == [right.value] + Matching(p.test, cur.value, child2.Rest())
      ensures right.None? ==> old(Matching(p.test, cur.value, child2.Rest())) == [] && !child2.HasNext()
      ensures right.Some? ==> right.value in child2.rows && p.test(cur.value, right.value)
      ensures right.Some? ==> Conforms(right.value, child2.schema)
    {
      while child2.HasNext()
        invariant Valid() && Running()
        invariant Matching(p.test, cur.value, child2.Rest()) == old(Matching(p.test, cur.value, child2.Rest()))
        decreases |child2.rows| - child2.pos
      {
        var t := child2.Next();
        if p.test(cur.value, t) {
          return Some(t);
        }
      }
      return None;
    }

    /** `buildResult(right)`: a fresh tuple holding the fields of `cur`, then those of `right`. */
    method BuildResult(right: Row) returns (r: Row)
      requires Valid() && cur.Some? && Conforms(right, child2.schema)
      ensures r == Concat(desc, cur.value, right)
      ensures |r.values| == NumFields(desc) && r.desc == desc && r.rid.None?
      ensures r.values[..NumFields(child1.schema)] == cur.value.values
      ensures r.values[NumFields(child1.schema)..] == right.values
    {
      r := Concatenate(desc, cur.value, right);
    }

    /** The left side moves on once `cur` has no more partners: next left tuple, right child rewound. */
    method NextLeft()
      requires Valid() && Running() && cur.Some?
      modifies this, child1, child2
      ensures Valid() && Running()
      ensures Remaining() == old(NestedLoop(p.test, desc, child1.Rest(), child2.rows))
      ensures |child1.rows| - child1.pos + (if cur.Some? then 1 else 0) < old(|child1.rows| - child1.pos + 1)
    {
      if child1.HasNext() {
        var l := child1.Next();
        cur := Some(l);
      } else {
        cur := None;
      }
      child2.Rewind();
    }

    /**
     * `fetchNext()`: the next tuple of the nested loop, rewinding the right child each time
     * the left side advances; `None` only when nothing is left.
     */
    method FetchNext() returns (r: Option<Row>)
      requires Valid() && Running()
      modifies this, child1, child2
      ensures Valid() && Running()
      ensures r.None? <==> old(Remaining()) == []
      ensures r.Some? ==> old(Remaining()) == [r.value] + Remaining()
      ensures r.None? ==> cur.None?
    {
      while cur.Some?
        invariant Valid() && Running()
        invariant Remaining() == old(Remaining())
        decreases |child1.rows| - child1.pos + (if cur.Some? then 1 else 0)
      {
        ghost var later := NestedLoop(p.test, desc, child1.Rest(), child2.rows);
        var right := GetRightTuple();
        ghost var pairs := Pairs(desc, cur.value, Matching(p.test, cur.value, child2.Rest()));
        if right.Some? {
          PairsCons(desc, cur.value, right.value, Matching(p.test, cur.value, child2.Rest()));
          var t := BuildResult(right.value);
          AppendAssoc([t], pairs, later);
          return Some(t);
        }
        assert old(Remaining()) == later;
        NextLeft();
      }
      return None;
    }
  }
}
