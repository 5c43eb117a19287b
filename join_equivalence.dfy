/**
 * The hash join and the nested-loop join agree: for an equality predicate on the two join
 * fields, `HashEquiJoin` emits the same tuples as `Join`, each as often, only in another order
 * (batch by batch, probe tuple by probe tuple, instead of left tuple by left tuple).
 */
module JoinEquivalence {
  import opened Schemas
  import opened Tuples
  import opened Sequences
  import opened Joins
  import opened HashJoins

  /** `test` is the equality of field `f1` of a left tuple and field `f2` of a right tuple. */
  ghost predicate KeyEquality(test: (Row, Row) -> bool, f1: nat, f2: nat, ls: seq<Row>, rs: seq<Row>)
  {
    forall l, r | l in ls && r in rs :: test(l, r) <==> KeyOf(l, f1) == KeyOf(r, f2)
  }

  /** The column of the nested loop under one right tuple: `[concat(l, r) | l in ls, test(l, r)]`. */
  function Column(test: (Row, Row) -> bool, desc: TupleDesc, ls: seq<Row>, r: Row): seq<Row>
    decreases |ls|
  {
    if ls == [] then []
    else (if test(ls[0], r) then [Concat(desc, ls[0], r)] else []) + Column(test, desc, ls[1..], r)
  }

  /** The right tuples a left tuple meets, when the first right tuple is split off. */
  lemma MatchingCons(test: (Row, Row) -> bool, l: Row, r: Row, rs: seq<Row>)
    ensures Matching(test, l, [r] + rs) == (if test(l, r) then [r] else []) + Matching(test, l, rs)
  {
    assert ([r] + rs)[0] == r;
    assert ([r] + rs)[1..] == rs;
  }

  /**
   * Splitting the first right tuple off the nested loop: its column, plus the loop over the
   * remaining right tuples, as multisets.
   */
  lemma {:induction false} NestedLoopConsRight(test: (Row, Row) -> bool, desc: TupleDesc,
                                               ls: seq<Row>, r: Row, rs: seq<Row>)
    ensures multiset(NestedLoop(test, desc, ls, [r] + rs))
         == multiset(Column(test, desc, ls, r)) + multiset(NestedLoop(test, desc, ls, rs))
    decreases |ls|
  {
    if ls != [] {
      var l := ls[0];
      NestedLoopConsRight(test, desc, ls[1..], r, rs);
      MatchingCons(test, l, r, rs);
      var m := Matching(test, l, rs);
      if test(l, r) {
        PairsCons(desc, l, r, m);
      } else {
        assert Matching(test, l, [r] + rs) == m;
      }
    }
  }

  /** Under an equality predicate a column is the build tuples with the probe tuple's key. */
  lemma {:induction false} ColumnIsKeyRows(test: (Row, Row) -> bool, f1: nat, f2: nat, desc: TupleDesc,
                                           ls: seq<Row>, r: Row)
    requires KeyEquality(test, f1, f2, ls, [r])
    ensures Column(test, desc, ls, r) == PairsLeft(desc, KeyRows(f1, ls, KeyOf(r, f2)), r)
    decreases |ls|
  {
    if ls != [] {
      assert r in [r];
      assert ls[0] in ls;
      assert KeyEquality(test, f1, f2, ls[1..], [r]) by {
        forall l | l in ls[1..] ensures l in ls { }
      }
      ColumnIsKeyRows(test, f1, f2, desc, ls[1..], r);
      var k := KeyOf(r, f2);
      var rest := KeyRows(f1, ls[1..], k);
      if KeyOf(ls[0], f1) == k {
        assert ([ls[0]] + rest)[0] == ls[0];
        assert ([ls[0]] + rest)[1..] == rest;
      } else {
        assert KeyRows(f1, ls, k) == rest;
      }
    }
  }

  /** Probing one batch yields the batch's nested loop, reordered. */
  lemma {:induction false} ProbeBatchIsNestedLoop(test: (Row, Row) -> bool, f1: nat, f2: nat, desc: TupleDesc,
                                                  b: seq<Row>, rs: seq<Row>)
    requires KeyEquality(test, f1, f2, b, rs)
    ensures multiset(ProbeBatch(f1, f2, desc, b, rs)) == multiset(NestedLoop(test, desc, b, rs))
    decreases |rs|
  {
    if rs != [] {
      assert rs == [rs[0]] + rs[1..];
      assert KeyEquality(test, f1, f2, b, rs[1..]) by {
        forall r | r in rs[1..] ensures r in rs { }
      }
      assert KeyEquality(test, f1, f2, b, [rs[0]]);
      ProbeBatchIsNestedLoop(test, f1, f2, desc, b, rs[1..]);
      ColumnIsKeyRows(test, f1, f2, desc, b, rs[0]);
      NestedLoopConsRight(test, desc, b, rs[0], rs[1..]);
      calc {
        multiset(ProbeBatch(f1, f2, desc, b, rs));
        multiset(PairsLeft(desc, KeyRows(f1, b, KeyOf(rs[0], f2)), rs[0]))
          + multiset(ProbeBatch(f1, f2, desc, b, rs[1..]));
        multiset(Column(test, desc, b, rs[0])) + multiset(NestedLoop(test, desc, b, rs[1..]));
        multiset(NestedLoop(test, desc, b, [rs[0]] + rs[1..]));
        { assert [rs[0]] + rs[1..] == rs; }
        multiset(NestedLoop(test, desc, b, rs));
      }
    } else {
      NestedLoopNoRight(test, desc, b);
    }
  }

  /** With no right tuples the nested loop emits nothing. */
  lemma {:induction false} NestedLoopNoRight(test: (Row, Row) -> bool, desc: TupleDesc, ls: seq<Row>)
    ensures NestedLoop(test, desc, ls, []) == []
    decreases |ls|
  {
    if ls != [] {
      NestedLoopNoRight(test, desc, ls[1..]);
    }
  }

  /**
   * A full hash-join run and a full nested-loop run over the same children emit the same
   * tuples with the same multiplicities, for every batch size.
   */
  lemma {:induction false} HashJoinIsNestedLoop(test: (Row, Row) -> bool, f1: nat, f2: nat, desc: TupleDesc,
                                                ls: seq<Row>, rs: seq<Row>, cap: nat)
    requires KeyEquality(test, f1, f2, ls, rs)
    ensures multiset(BatchedJoin(f1, f2, desc, ls, rs, cap)) == multiset(NestedLoop(test, desc, ls, rs))
    decreases |ls|
  {
    if ls != [] {
      var n := BatchSize(cap, |ls|);
      assert ls == ls[..n] + ls[n..];
      assert KeyEquality(test, f1, f2, ls[..n], rs) by {
        forall l | l in ls[..n] ensures l in ls { }
      }
      assert KeyEquality(test, f1, f2, ls[n..], rs) by {
        forall l | l in ls[n..] ensures l in ls { }
      }
      BatchedJoinStep(f1, f2, desc, ls[..n], ls[n..], rs, cap);
      ProbeBatchIsNestedLoop(test, f1, f2, desc, ls[..n], rs);
      HashJoinIsNestedLoop(test, f1, f2, desc, ls[n..], rs, cap);
      NestedLoopAppend(test, desc, ls[..n], ls[n..], rs);
    }
  }
}
