/**
 * HashEquiJoin: the batched hash join (src/java/simpledb/execution/HashEquiJoin.java).
 * The left (build) child is loaded MAP_SIZE + 1 tuples at a time into a key -> tuple-list
 * map; the right (probe) child is scanned once per batch.
 */
module HashJoins {
  import opened Wrappers
  import opened Schemas
  import opened Tuples
  import opened Sequences
  import opened Cursors
  import opened Joins

  const MAP_SIZE: nat := 20000

  /** The value of slot `f`, the hash key; rows of the operator's children always have that slot. */
  function KeyOf(t: Row, f: nat): Option<Field>
  {
    if f < |t.values| then t.values[f] else None
  }

  /** A build map after appending `t` to the list under its key (`computeIfAbsent(...).add(t)`). */
  function Insert(m: map<Option<Field>, seq<Row>>, f1: nat, t: Row): map<Option<Field>, seq<Row>>
  {
    var k := KeyOf(t, f1);
    m[k := (if k in m then m[k] else []) + [t]]
  }

  /** The build map after loading `b` in order into an empty map. */
  function Group(f1: nat, b: seq<Row>): map<Option<Field>, seq<Row>>
    decreases |b|
  {
    if b == [] then map[] else Insert(Group(f1, b[..|b| - 1]), f1, b[|b| - 1])
  }

  /** The tuples of `b` whose key is `k`, in order. */
  function KeyRows(f1: nat, b: seq<Row>, k: Option<Field>): seq<Row>
    decreases |b|
  {
    if b == [] then []
    else (if KeyOf(b[0], f1) == k then [b[0]] else []) + KeyRows(f1, b[1..], k)
  }

  lemma {:induction false} KeyRowsAppend(f1: nat, a: seq<Row>, b: seq<Row>, k: Option<Field>)
    ensures KeyRows(f1, a + b, k) == KeyRows(f1, a, k) + KeyRows(f1, b, k)
    decreases |a|
  {
    if a == [] {
      assert a + b == b;
    } else {
      var h := if KeyOf(a[0], f1) == k then [a[0]] else [];
      assert a == [a[0]] + a[1..];
      assert a + b == [a[0]] + (a[1..] + b);
      KeyRowsCons(f1, a[0], a[1..] + b, k);
      KeyRowsCons(f1, a[0], a[1..], k);
      KeyRowsAppend(f1, a[1..], b, k);
      AppendAssoc(h, KeyRows(f1, a[1..], k), KeyRows(f1, b, k));
    }
  }

  lemma KeyRowsCons(f1: nat, x: Row, s: seq<Row>, k: Option<Field>)
    ensures KeyRows(f1, [x] + s, k) == (if KeyOf(x, f1) == k then [x] else []) + KeyRows(f1, s, k)
  {
    assert ([x] + s)[0] == x && ([x] + s)[1..] == s;
  }

  /** The tuples with key `k` are tuples of `b` that carry that key. */
  lemma {:induction false} KeyRowsSound(f1: nat, b: seq<Row>, k: Option<Field>)
    ensures forall l | l in KeyRows(f1, b, k) :: l in b && KeyOf(l, f1) == k
    decreases |b|
  {
    if b != [] {
      KeyRowsSound(f1, b[1..], k);
    }
  }

  /** The list under key `k` holds exactly the loaded tuples with that key, in arrival order. */
  lemma {:induction false} GroupAt(f1: nat, b: seq<Row>, k: Option<Field>)
    ensures k in Group(f1, b) <==> KeyRows(f1, b, k) != []
    ensures k in Group(f1, b) ==> Group(f1, b)[k] == KeyRows(f1, b, k)
    decreases |b|
  {
    if b != [] {
      var front := b[..|b| - 1];
      var t := b[|b| - 1];
      GroupAt(f1, front, k);
      assert b == front + [t];
      KeyRowsAppend(f1, front, [t], k);
    }
  }

  /** `[concat(l, r) | l in ls]`: one output per build tuple in a key's list. */
  function PairsLeft(desc: TupleDesc, ls: seq<Row>, r: Row): (out: seq<Row>)
    ensures |out| == |ls|
    decreases |ls|
  {
    if ls == [] then [] else [Concat(desc, ls[0], r)] + PairsLeft(desc, ls[1..], r)
  }

  lemma PairsLeftCons(desc: TupleDesc, ls: seq<Row>, r: Row)
    requires ls != []
    ensures PairsLeft(desc, ls, r) == [Concat(desc, ls[0], r)] + PairsLeft(desc, ls[1..], r)
  {
  }

  /** Probing `rs` in order against build map `m`: for each probe tuple with a known key, its list's pairs. */
  function ProbeMap(m: map<Option<Field>, seq<Row>>, f2: nat, desc: TupleDesc, rs: seq<Row>): seq<Row>
    decreases |rs|
  {
    if rs == [] then []
    else
      var k := KeyOf(rs[0], f2);
      (if k in m then PairsLeft(desc, m[k], rs[0]) else []) + ProbeMap(m, f2, desc, rs[1..])
  }

  /** Probing `rs` in order against the batch `b`: each probe tuple meets the build tuples with its key. */
  function ProbeBatch(f1: nat, f2: nat, desc: TupleDesc, b: seq<Row>, rs: seq<Row>): seq<Row>
    decreases |rs|
  {
    if rs == [] then []
    else PairsLeft(desc, KeyRows(f1, b, KeyOf(rs[0], f2)), rs[0]) + ProbeBatch(f1, f2, desc, b, rs[1..])
  }

  /** Looking a probe key up in the build map finds exactly the batch's tuples with that key. */
  lemma {:induction false} ProbeMapIsProbeBatch(f1: nat, f2: nat, desc: TupleDesc, b: seq<Row>, rs: seq<Row>)
    ensures ProbeMap(Group(f1, b), f2, desc, rs) == ProbeBatch(f1, f2, desc, b, rs)
    decreases |rs|
  {
    if rs != [] {
      GroupAt(f1, b, KeyOf(rs[0], f2));
      ProbeMapIsProbeBatch(f1, f2, desc, b, rs[1..]);
    }
  }

  /**
   * The size of the next batch: `loadMap` stops after MAP_SIZE + 1 tuples, since its count
   * is compared with MAP_SIZE only after the tuple is added.
   */
  function BatchSize(cap: nat, n: nat): (k: nat)
    ensures k <= n && k <= cap + 1 && (n > 0 ==> k > 0)
    ensures cap + 1 <= n ==> k == cap + 1
    ensures n <= cap + 1 ==> k == n
  {
    if n < cap + 1 then n else cap + 1
  }

  /** The output of a full run: each batch of `cap + 1` build tuples probed by all of `rs`. */
  function BatchedJoin(f1: nat, f2: nat, desc: TupleDesc, ls: seq<Row>, rs: seq<Row>, cap: nat): seq<Row>
    decreases |ls|
  {
    if ls == [] then []
    else if |ls| <= cap + 1 then ProbeBatch(f1, f2, desc, ls, rs)
    else ProbeBatch(f1, f2, desc, ls[..cap + 1], rs) + BatchedJoin(f1, f2, desc, ls[cap + 1..], rs, cap)
  }

  /** Every list of a build map is non-empty and holds loaded tuples with its key only. */
  lemma GroupList(f1: nat, b: seq<Row>, k: Option<Field>, schema: TupleDesc)
    requires AllConform(b, schema) && k in Group(f1, b)
    ensures Group(f1, b)[k] != [] && AllConform(Group(f1, b)[k], schema)
    ensures forall t | t in Group(f1, b)[k] :: t in b && KeyOf(t, f1) == k
  {
    GroupAt(f1, b, k);
    KeyRowsSound(f1, b, k);
  }

  /** Probing an empty batch yields nothing. */
  lemma {:induction false} ProbeEmpty(f1: nat, f2: nat, desc: TupleDesc, rs: seq<Row>)
    ensures ProbeBatch(f1, f2, desc, [], rs) == []
    decreases |rs|
  {
    if rs != [] {
      ProbeEmpty(f1, f2, desc, rs[1..]);
    }
  }

  /** One batch of a full run, stated for every build input, the empty one included. */
  lemma BatchedJoinStep(f1: nat, f2: nat, desc: TupleDesc, batch: seq<Row>, later: seq<Row>,
                        rs: seq<Row>, cap: nat)
    requires |batch| == BatchSize(cap, |batch + later|)
    ensures BatchedJoin(f1, f2, desc, batch + later, rs, cap)
      == ProbeBatch(f1, f2, desc, batch, rs) + BatchedJoin(f1, f2, desc, later, rs, cap)
  {
    var ls := batch + later;
    if ls == [] {
      ProbeEmpty(f1, f2, desc, rs);
    } else if |ls| <= cap + 1 {
      assert later == [] && ls == batch;
    } else {
      assert ls[..cap + 1] == batch && ls[cap + 1..] == later;
    }
  }

  class HashEquiJoin {
    const pred: JoinPredicate
    const child1: Cursor
    const child2: Cursor
    const comboTD: TupleDesc
    /** The last build tuple read. */
    var t1: Option<Row>
    /** The current probe tuple. */
    var t2: Option<Row>
    /** The build map (`map`) of the current batch. */
    var buildMap: map<Option<Field>, seq<Row>>
    /** What the list iterator has not yet returned; `None` is a null iterator. */
    var listIt: Option<seq<Row>>
    /** The build tuples of the current batch, in the order they were loaded. */
    ghost var batch: seq<Row>
    /** What the batches not yet loaded emit; kept in step with the build child by `Planned()`. */
    ghost var laterBatches: seq<Row>

    constructor (p: JoinPredicate, child1: Cursor, child2: Cursor)
      requires child1 != child2 && child1.Valid() && child2.Valid()
      requires p.field1 < NumFields(child1.schema) && p.field2 < NumFields(child2.schema)
      ensures Valid() && pred == p && this.child1 == child1 && this.child2 == child2
      ensures comboTD == Merge(child1.schema, child2.schema)
      ensures t1.None? && t2.None? && listIt.None? && buildMap == map[]
    {
      pred := p;
      this.child1 := child1;
      this.child2 := child2;
      comboTD := Merge(child1.schema, child2.schema);
      t1, t2 := None, None;
      buildMap := map[];
      batch := [];
      laterBatches := [];
      listIt := None;
    }

    ghost predicate Valid()
      reads this`batch, this`buildMap, this`listIt, this`t2, child1, child2
    {
      && child1 != child2 && child1.Valid() && child2.Valid()
      && comboTD == Merge(child1.schema, child2.schema)
      && pred.field1 < NumFields(child1.schema) && pred.field2 < NumFields(child2.schema)
      && AllConform(batch, child1.schema) && buildMap == Group(pred.field1, batch)
      && (listIt.Some? ==> t2.Some? && AllConform(listIt.value, child1.schema))
      && (t2.Some? ==> Conforms(t2.value, child2.schema))
    }

    /** The pairs the list iterator still owes for the current probe tuple. */
    ghost function ListRest(): seq<Row>
      reads this`listIt, this`t2
    {
      if listIt.Some? && t2.Some? then PairsLeft(comboTD, listIt.value, t2.value) else []
    }

    /**
     * What the rest of the run emits: the current list's leftovers, the current batch probed
     * by the rest of the right child, then the later batches probed by all of it.
     */
    ghost function Remaining(): seq<Row>
      reads this`listIt, this`t2, this`batch, this`laterBatches, child2`rest
    {
      ListRest() + ProbeRest() + laterBatches
    }

    /** What probing the rest of the right child against the current batch still emits. */
    ghost function ProbeRest(): seq<Row>
      reads this`batch, child2`rest
    {
      ProbeBatch(pred.field1, pred.field2, comboTD, batch, child2.Rest())
    }

    /** The later batches are those of the rest of the build child, each probed by all of the right child. */
    ghost predicate Planned()
      reads this`laterBatches, child1`rest
    {
      laterBatches == BatchedJoin(pred.field1, pred.field2, comboTD, child1.Rest(), child2.rows, MAP_SIZE)
    }

    /** No leftover list pairs and an empty map: the state after a finished run or `close()`. */
    ghost predicate Drained()
      reads this`listIt, this`t2, this`buildMap, this`batch
    {
      ListRest() == [] && buildMap == map[] && batch == []
    }

    /** `getTupleDesc()`: the merge of the two child schemas. */
    function GetTupleDesc(): (td: TupleDesc)
      ensures NumFields(td) == NumFields(child1.schema) + NumFields(child2.schema)
      ensures forall i | 0 <= i < NumFields(td) ::
        td.items[i] == if i < NumFields(child1.schema) then child1.schema.items[i]
                       else child2.schema.items[i - NumFields(child1.schema)]
    {
      Merge(child1.schema, child2.schema)
    }

    /**
     * `loadMap()`: clears the map and loads build tuples under their key until MAP_SIZE + 1
     * are loaded or the build child runs out; true iff it loaded any.
     */
    method LoadMap() returns (loaded: bool)
      requires Valid() && child1.isOpen
      modifies this, child1
      ensures Valid() && child1.isOpen
      ensures old(child1.Rest()) == batch + child1.Rest()
      ensures |batch| == BatchSize(MAP_SIZE, |old(child1.Rest())|)
      ensures buildMap == Group(pred.field1, batch) && (loaded <==> batch != [])
      ensures listIt == old(listIt) && t2 == old(t2)
    {
      ghost var rest := child1.Rest();
      var cnt := 0;
      buildMap := map[];
      batch := [];
      while child1.HasNext()
        invariant Valid() && child1.isOpen
        invariant rest == batch + child1.Rest() && cnt == |batch| <= MAP_SIZE
        invariant listIt == old(listIt) && t2 == old(t2)
        decreases |child1.rows| - child1.pos
      {
        ghost var before := batch;
        var t := child1.Next();
        Add(t);
        AppendAssoc(before, [t], child1.Rest());
        if cnt == MAP_SIZE {
          return true;
        }
        cnt := cnt + 1;
      }
      return cnt > 0;
    }

    /** `t1 = t; map.computeIfAbsent(key, ...).add(t1)`: appends `t` to the list under its key. */
    method Add(t: Row)
      requires Valid() && Conforms(t, child1.schema)
      modifies this
      ensures Valid() && t1 == Some(t) && batch == old(batch) + [t]
      ensures buildMap == Insert(old(buildMap), pred.field1, t)
      ensures listIt == old(listIt) && t2 == old(t2)
    {
      ghost var after := batch + [t];
      assert after[..|after| - 1] == batch;
      t1 := Some(t);
      var k := t.values[pred.field1];
      var list := if k in buildMap then buildMap[k] else [];
      buildMap := buildMap[k := list + [t]];
      batch := after;
    }

    /** `open()`: opens both children and loads the first batch; the list iterator is kept. */
    method Open()
      requires Valid()
      modifies this, child1, child2
      ensures Valid() && Planned() && child1.isOpen && child2.isOpen
      ensures listIt == old(listIt) && t2 == old(t2)
      ensures batch + child1.Rest() == child1.rows && |batch| == BatchSize(MAP_SIZE, |child1.rows|)
      ensures child2.Rest() == child2.rows
      ensures Remaining() == old(ListRest())
        + BatchedJoin(pred.field1, pred.field2, comboTD, child1.rows, child2.rows, MAP_SIZE)
    {
      ghost var leftover := ListRest();
      child1.Open();
      child2.Open();
      var _ := LoadBatch();
      assert ListRest() == leftover;
      AppendAssoc(leftover, ProbeRest(), laterBatches);
    }

    /**
     * `loadMap()` with the right child at its start: the batch just loaded, probed by the whole
     * right child, and the later batches together make up the run over the build child's rest.
     */
    method LoadBatch() returns (loaded: bool)
      requires Valid() && child1.isOpen && child2.isOpen && child2.Rest() == child2.rows
      modifies this, child1
      ensures Valid() && Planned() && child1.isOpen && child2.isOpen && child2.Rest() == child2.rows
      ensures listIt == old(listIt) && t2 == old(t2)
      ensures ProbeRest() + laterBatches
        == BatchedJoin(pred.field1, pred.field2, comboTD, old(child1.Rest()), child2.rows, MAP_SIZE)
      ensures old(child1.Rest()) == batch + child1.Rest()
      ensures |batch| == BatchSize(MAP_SIZE, |old(child1.Rest())|)
      ensures (loaded <==> batch != []) && (loaded <==> old(child1.Rest()) != [])
      ensures !loaded ==> batch == [] && buildMap == map[]
    {
      loaded := LoadMap();
      laterBatches := BatchedJoin(pred.field1, pred.field2, comboTD, child1.Rest(), child2.rows, MAP_SIZE);
      BatchedJoinStep(pred.field1, pred.field2, comboTD, batch, child1.Rest(), child2.rows, MAP_SIZE);
    }

    /** `close()`: closes both children and clears t1, t2, the list iterator and the map. */
    method Close()
      requires Valid()
      modifies this, child1, child2
      ensures Valid() && !child1.isOpen && !child2.isOpen
      ensures t1.None? && t2.None? && listIt.None? && buildMap == map[] && Drained()
    {
      child2.Close();
      child1.Close();
      t1 := None;
      t2 := None;
      listIt := None;
      buildMap := map[];
      batch := [];
    }

    /**
     * `rewind()`: rewinds only the two children. The map and the list iterator of the
     * current batch survive, so their pairs are produced again before the first batch.
     */
    method Rewind()
      requires Valid()
      modifies this, child1, child2
      ensures Valid() && Planned() && child1.isOpen && child2.isOpen
      ensures t1 == old(t1) && t2 == old(t2) && listIt == old(listIt) && buildMap == old(buildMap)
      ensures batch == old(batch)
      ensures laterBatches == BatchedJoin(pred.field1, pred.field2, comboTD, child1.rows, child2.rows, MAP_SIZE)
      ensures Remaining() == old(ListRest()) + ProbeBatch(pred.field1, pred.field2, comboTD, batch, child2.rows)
        + laterBatches
      ensures old(Drained()) ==> Remaining() == laterBatches
    {
      child1.Rewind();
      child2.Rewind();
      laterBatches := BatchedJoin(pred.field1, pred.field2, comboTD, child1.rows, child2.rows, MAP_SIZE);
      ProbeEmpty(pred.field1, pred.field2, comboTD, child2.rows);
    }

    /**
     * `rewind()` as the other operators define it, `close()` then `open()`: the stale list and
     * map are dropped, so the run starts over exactly, from any state.
     */
    method RewindAsIntended()
      requires Valid()
      modifies this, child1, child2
      ensures Valid() && Planned() && child1.isOpen && child2.isOpen && ListRest() == []
      ensures Remaining() == BatchedJoin(pred.field1, pred.field2, comboTD, child1.rows, child2.rows, MAP_SIZE)
    {
      Close();
      Open();
    }

    /** `processList()`: the next build tuple of the current list joined with the probe tuple. */
    method ProcessList() returns (r: Row)
      requires Valid() && listIt.Some? && listIt.value != []
      modifies this
      ensures Valid()
      ensures old(ListRest()) == [r] + ListRest()
      ensures old(Remaining()) == [r] + Remaining()
      ensures t1 == Some(old(listIt.value[0])) && listIt == Some(old(listIt.value[1..]))
      ensures buildMap == old(buildMap) && batch == old(batch) && t2 == old(t2)
      ensures laterBatches == old(laterBatches)
    {
      ghost var probe := ProbeRest();
      ghost var list := listIt.value;
      var l := listIt.value[0];
      assert l in listIt.value;
      PairsLeftCons(comboTD, list, t2.value);
      t1 := Some(l);
      listIt := Some(listIt.value[1..]);
      r := Concatenate(comboTD, l, t2.value);
      assert ListRest() == PairsLeft(comboTD, list[1..], t2.value);
      assert ProbeRest() == probe;
      ConcatAssoc([r], ListRest(), probe, laterBatches);
    }

    /** `listIt = l.iterator(); return processList();`: starts the list of the probe tuple's key. */
    method StartList(l: Option<Field>) returns (r: Row)
      requires Valid() && t2.Some? && l in buildMap
      modifies this
      ensures Valid() && buildMap == old(buildMap) && batch == old(batch) && t2 == old(t2)
      ensures laterBatches == old(laterBatches)
      ensures PairsLeft(comboTD, KeyRows(pred.field1, batch, l), t2.value) == [r] + ListRest()
    {
      GroupList(pred.field1, batch, l, child1.schema);
      GroupAt(pred.field1, batch, l);
      listIt := Some(buildMap[l]);
      r := ProcessList();
    }

    /**
     * One turn of `fetchNext()`'s loop around the right child: reads the next probe tuple and,
     * when its key has a list in the map, starts that list.
     */
    method ProbeStep() returns (r: Option<Row>)
      requires Valid() && child2.isOpen && child2.HasNext() && ListRest() == []
      modifies this, child2
      ensures Valid() && child2.isOpen && child2.pos == old(child2.pos) + 1
      ensures buildMap == old(buildMap) && batch == old(batch) && laterBatches == old(laterBatches)
      ensures r.Some? ==> old(ProbeRest()) == [r.value] + ListRest() + ProbeRest()
      ensures r.None? ==> old(ProbeRest()) == ProbeRest() && ListRest() == []
    {
      ghost var rest := child2.Rest();
      var t := child2.Next();
      t2 := Some(t);
      var l := t.values[pred.field2];
      assert KeyOf(t, pred.field2) == l;
      GroupAt(pred.field1, batch, l);
      ghost var probe := ProbeRest();
      ghost var pairs := PairsLeft(comboTD, KeyRows(pred.field1, batch, l), t);
      assert ProbeBatch(pred.field1, pred.field2, comboTD, batch, rest) == pairs + probe;
      if l !in buildMap {
        assert pairs == [];
        return None;
      }
      var out := StartList(l);
      assert ProbeRest() == probe;
      return Some(out);
    }

    /**
     * The loop of `fetchNext()` around the right child: reads probe tuples until one has a
     * list in the map, then starts that list; `None` once the right child is used up.
     */
    method Probe() returns (r: Option<Row>)
      requires Valid() && child1.isOpen && child2.isOpen && ListRest() == []
      modifies this, child2
      ensures Valid() && child1.isOpen && child2.isOpen
      ensures buildMap == old(buildMap) && batch == old(batch) && laterBatches == old(laterBatches)
      ensures r.Some? ==> old(Remaining()) == [r.value] + Remaining()
      ensures r.None? ==> child2.Rest() == [] && ListRest() == []
      ensures r.None? ==> old(Remaining()) == laterBatches
    {
      ghost var probe := ProbeRest();
      assert old(Remaining()) == probe + laterBatches;
      while child2.HasNext()
        invariant Valid() && child1.isOpen && child2.isOpen && ListRest() == []
        invariant buildMap == old(buildMap) && batch == old(batch) && laterBatches == old(laterBatches)
        invariant ProbeRest() == probe
        decreases |child2.rows| - child2.pos
      {
        r := ProbeStep();
        if r.Some? {
          ConcatAssoc([r.value], ListRest(), ProbeRest(), laterBatches);
          return;
        }
      }
      assert ProbeRest() == [];
      return None;
    }

    /**
     * `fetchNext()`: drains the current list, else probes with the next right tuple; when the
     * right child is used up it is rewound and the next batch loaded. `None` only at the end.
     */
    method FetchNext() returns (r: Option<Row>)
      requires Valid() && Planned() && child1.isOpen && child2.isOpen
      modifies this, child1, child2
      ensures Valid() && Planned() && child1.isOpen && child2.isOpen
      ensures r.None? <==> old(Remaining()) == []
      ensures r.Some? ==> old(Remaining()) == [r.value] + Remaining()
      ensures r.None? ==> Drained() && Remaining() == []
      decreases |child1.Rest()|
    {
      if listIt.Some? && listIt.value != [] {
        var t := ProcessList();
        return Some(t);
      }
      r := Probe();
      if r.Some? {
        return;
      }
      var loaded := NextBatch();
      if loaded {
        r := FetchNext();
        return;
      }
      return None;
    }

    /** The end of `fetchNext()`'s probe loop: the right child is rewound and the next batch loaded. */
    method NextBatch() returns (loaded: bool)
      requires Valid() && Planned() && child1.isOpen && child2.isOpen && ListRest() == []
      modifies this, child1, child2
      ensures Valid() && Planned() && child1.isOpen && child2.isOpen && ListRest() == []
      ensures Remaining() == old(laterBatches)
      ensures loaded <==> old(child1.Rest()) != []
      ensures loaded ==> |child1.Rest()| < old(|child1.Rest()|)
      ensures !loaded ==> Drained() && Remaining() == []
    {
      ghost var rest1 := child1.Rest();
      assert laterBatches == BatchedJoin(pred.field1, pred.field2, comboTD, rest1, child2.rows, MAP_SIZE);
      child2.Rewind();
      loaded := LoadBatch();
      assert ListRest() == [];
      AppendAssoc(ListRest(), ProbeRest(), laterBatches);
      if !loaded {
        ProbeEmpty(pred.field1, pred.field2, comboTD, child2.rows);
      }
    }
  }

  /**
   * Rewinding right after `open()` repeats the first batch: with one matching pair, a fresh
   * run emits it once, the rewound one twice.
   */
  lemma RewindAfterOpenRepeatsBatch(f1: nat, f2: nat, desc: TupleDesc, l: Row, r: Row)
    requires KeyOf(l, f1) == KeyOf(r, f2)
    ensures BatchedJoin(f1, f2, desc, [l], [r], MAP_SIZE) == [Concat(desc, l, r)]
    ensures ProbeBatch(f1, f2, desc, [l], [r]) + BatchedJoin(f1, f2, desc, [l], [r], MAP_SIZE)
      == [Concat(desc, l, r), Concat(desc, l, r)]
  {
    var c := Concat(desc, l, r);
    assert [l][..1] == [l] && [l][1..] == [];
    assert KeyRows(f1, [l], KeyOf(r, f2)) == [l];
    assert PairsLeft(desc, [l], r) == [c];
    assert ProbeBatch(f1, f2, desc, [l], [r]) == [c];
  }

  /** A join over a one-tuple build child `[l]` and a one-tuple probe child `[r]`, just opened. */
  method OpenSingles(p: JoinPredicate, s1: TupleDesc, s2: TupleDesc, l: Row, r: Row)
      returns (j: HashEquiJoin)
    requires Conforms(l, s1) && Conforms(r, s2)
    requires p.field1 < NumFields(s1) && p.field2 < NumFields(s2)
    ensures fresh(j) && fresh(j.child1) && fresh(j.child2)
    ensures j.Valid() && j.pred == p && j.comboTD == Merge(s1, s2)
    ensures j.child1.rows == [l] && j.child2.rows == [r]
    ensures j.listIt.None? && j.batch == [l]
  {
    var c1 := new Cursor(s1, [l]);
    var c2 := new Cursor(s2, [r]);
    j := new HashEquiJoin(p, c1, c2);
    j.Open();
  }

  /**
   * The same duplicate, through the operator itself: over a build child `[l]` and a probe
   * child `[r]` with equal keys, `open()` then `rewind()` leaves `concat(l, r)` owed twice,
   * while a fresh run emits it once.
   */
  method OpenThenRewind(p: JoinPredicate, s1: TupleDesc, s2: TupleDesc, l: Row, r: Row)
      returns (j: HashEquiJoin)
    requires Conforms(l, s1) && Conforms(r, s2)
    requires p.field1 < NumFields(s1) && p.field2 < NumFields(s2)
    requires KeyOf(l, p.field1) == KeyOf(r, p.field2)
    ensures j.Valid() && j.child1.rows == [l] && j.child2.rows == [r]
    ensures j.Remaining() == [Concat(j.comboTD, l, r), Concat(j.comboTD, l, r)]
    ensures BatchedJoin(p.field1, p.field2, j.comboTD, [l], [r], MAP_SIZE) == [Concat(j.comboTD, l, r)]
  {
    RewindAfterOpenRepeatsBatch(p.field1, p.field2, Merge(s1, s2), l, r);
    j := OpenSingles(p, s1, s2, l, r);
    j.Rewind();
  }
}
