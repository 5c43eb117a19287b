/** Tuple: a fixed-length slot array updated in place (src/java/simpledb/storage/Tuple.java). */
module Tuples {
  import opened Wrappers
  import opened Schemas
  import opened RecordIds

  /** A column value (`simpledb.storage.Field`): compared by value, usable as a hash key. */
  type Field(==)

  /**
   * The value of a Tuple at one moment: its schema, its slots (`None` is an unset slot)
   * and its record id. Operators pass tuples along as these values.
   */
  datatype Row = Row(desc: TupleDesc, values: seq<Option<Field>>, rid: Option<RecordId>)

  /** A well-formed tuple of a child whose schema is `schema`: one slot per field. */
  predicate Conforms(t: Row, schema: TupleDesc)
  {
    |t.values| == NumFields(t.desc) == NumFields(schema)
  }

  /** Every tuple of `rows` conforms to `schema`. */
  predicate AllConform(rows: seq<Row>, schema: TupleDesc)
  {
    forall t | t in rows :: Conforms(t, schema)
  }

  /** A join result: left slots, then right slots, a fresh schema and no record id. */
  function Concat(desc: TupleDesc, left: Row, right: Row): Row
  {
    Row(desc, left.values + right.values, None)
  }

  /** `s[0] + sep + s[1] + ... + sep + s[n-1]`, as `Collectors.joining(sep)` builds it. */
  function JoinWith(ss: seq<string>, sep: char): string
    decreases |ss|
  {
    if ss == [] then ""
    else if |ss| == 1 then ss[0]
    else ss[0] + [sep] + JoinWith(ss[1..], sep)
  }

  /** Splits `s` at every `sep`; the inverse of JoinWith. */
  function SplitOn(s: string, sep: char): (r: seq<string>)
    ensures |r| > 0
    decreases |s|
  {
    if s == [] then [""]
    else
      var rest := SplitOn(s[1..], sep);
      if s[0] == sep then [""] + rest
      else [[s[0]] + rest[0]] + rest[1..]
  }

  lemma {:induction false} SplitNoSep(a: string, sep: char)
    requires sep !in a
    ensures SplitOn(a, sep) == [a]
    decreases |a|
  {
    if a != [] {
      SplitNoSep(a[1..], sep);
      assert [a[0]] + a[1..] == a;
    }
  }

  lemma {:induction false} SplitAtSep(a: string, sep: char, t: string)
    requires sep !in a
    ensures SplitOn(a + [sep] + t, sep) == [a] + SplitOn(t, sep)
    decreases |a|
  {
    if a == [] {
      assert a + [sep] + t == [sep] + t;
      assert ([sep] + t)[1..] == t;
    } else {
      var s := a + [sep] + t;
      assert s[0] == a[0];
      assert s[1..] == a[1..] + [sep] + t;
      SplitAtSep(a[1..], sep, t);
      assert [a[0]] + a[1..] == a;
    }
  }

  /** Joining non-empty lists of separator-free strings can be undone by splitting. */
  lemma {:induction false} SplitJoin(ss: seq<string>, sep: char)
    requires |ss| > 0
    requires forall i | 0 <= i < |ss| :: sep !in ss[i]
    ensures SplitOn(JoinWith(ss, sep), sep) == ss
    decreases |ss|
  {
    if |ss| == 1 {
      SplitNoSep(ss[0], sep);
    } else {
      SplitJoin(ss[1..], sep);
      SplitAtSep(ss[0], sep, JoinWith(ss[1..], sep));
      assert [ss[0]] + ss[1..] == ss;
    }
  }

  /** All slots set; otherwise `Field::toString` is applied to a null slot and throws. */
  predicate AllSet(values: seq<Option<Field>>)
  {
    forall i | 0 <= i < |values| :: values[i].Some?
  }

  class Tuple {
    const values: array<Option<Field>>
    var td: TupleDesc
    var recordId: Option<RecordId>

    /** `new Tuple(td)`: `numFields()` unset slots, no record id. */
    constructor (td: TupleDesc)
      ensures this.td == td && recordId.None?
      ensures fresh(values) && values.Length == NumFields(td)
      ensures forall i | 0 <= i < values.Length :: values[i].None?
    {
      this.td := td;
      values := new Option<Field>[NumFields(td)](_ => None);
      recordId := None;
    }

    /** The tuple as a value. */
    function Snapshot(): Row
      reads this, values
    {
      Row(td, values[..], recordId)
    }

    /** `getTupleDesc()`: the schema of the tuple's current value. */
    function GetTupleDesc(): (d: TupleDesc)
      reads this, values
      ensures d == Snapshot().desc
    {
      td
    }

    /** `getRecordId()`: the record id of the tuple's current value; `None` until one is set. */
    function GetRecordId(): (rid: Option<RecordId>)
      reads this, values
      ensures rid == Snapshot().rid
    {
      recordId
    }

    /** `setRecordId(rid)` changes only the record id. */
    method SetRecordId(rid: Option<RecordId>)
      modifies this`recordId
      ensures GetRecordId() == rid
      ensures td == old(td) && values[..] == old(values[..])
    {
      recordId := rid;
    }

    /** `setField(i, f)`: slot `i` becomes `f`, every other slot keeps its value. */
    method SetField(i: nat, f: Option<Field>)
      requires i < values.Length
      modifies values
      ensures GetField(i) == f
      ensures forall j | 0 <= j < values.Length && j != i :: values[j] == old(values[j])
      ensures values[..] == old(values[..])[i := f]
    {
      values[i] := f;
    }

    /** `getField(i)`: the value of slot `i`, `None` if unset. */
    function GetField(i: nat): (v: Option<Field>)
      requires i < values.Length
      reads this, values
      ensures v == Snapshot().values[i]
    {
      values[i]
    }

    /** `resetTupleDesc(td)` replaces only the schema; the slot count may then differ from it. */
    method ResetTupleDesc(td: TupleDesc)
      modifies this`td
      ensures GetTupleDesc() == td
      ensures recordId == old(recordId) && values[..] == old(values[..])
    {
      this.td := td;
    }

    /** `fields()`: the slot values in index order. */
    function Fields(): (fs: seq<Option<Field>>)
      reads values
      ensures |fs| == values.Length
      ensures forall i | 0 <= i < values.Length :: fs[i] == GetField(i)
    {
      values[..]
    }

    /**
     * `toString()`: the field strings joined by tabs, with `show` standing for
     * `Field.toString`; `None` when a slot is unset.
     */
    function ToString(show: Field -> string): (r: Option<string>)
      reads values
      ensures r.Some? <==> AllSet(values[..])
    {
      if AllSet(values[..])
      then Some(JoinWith(seq(values.Length, i reads values requires 0 <= i < values.Length
                                              && values[i].Some? => show(values[i].value)), '\t'))
      else None
    }

    /** The tab-joined string splits back into the field strings when none contains a tab. */
    lemma ToStringSplits(show: Field -> string)
      requires values.Length > 0 && AllSet(values[..])
      requires forall i | 0 <= i < values.Length :: '\t' !in show(values[i].value)
      ensures ToString(show).Some?
      ensures var parts := SplitOn(ToString(show).value, '\t');
        |parts| == values.Length &&
        forall i | 0 <= i < values.Length :: parts[i] == show(values[i].value)
    {
      var ss := seq(values.Length, i reads values requires 0 <= i < values.Length
                                   && values[i].Some? => show(values[i].value));
      SplitJoin(ss, '\t');
    }
  }

  /**
   * Builds a join result slot by slot, as `Join.buildResult` and `HashEquiJoin.processList` do:
   * a fresh tuple of schema `desc`, left slots first, right slots after them. The result is
   * handed on as the value of that tuple.
   */
  method Concatenate(desc: TupleDesc, left: Row, right: Row) returns (r: Row)
    requires |left.values| == NumFields(left.desc) && |right.values| == NumFields(right.desc)
    requires NumFields(desc) == NumFields(left.desc) + NumFields(right.desc)
    ensures r == Concat(desc, left, right)
    ensures r.desc == desc && r.rid.None? && |r.values| == NumFields(desc)
    ensures r.values[..|left.values|] == left.values && r.values[|left.values|..] == right.values
  {
    var t := new Tuple(desc);
    var n1 := NumFields(left.desc);
    for i := 0 to n1
      invariant t.td == desc && t.recordId.None?
      invariant forall j | 0 <= j < i :: t.values[j] == left.values[j]
      invariant forall j | i <= j < t.values.Length :: t.values[j].None?
    {
      t.SetField(i, left.values[i]);
    }
    var n2 := NumFields(right.desc);
    for i := 0 to n2
      invariant t.td == desc && t.recordId.None?
      invariant forall j | 0 <= j < n1 :: t.values[j] == left.values[j]
      invariant forall j | 0 <= j < i :: t.values[n1 + j] == right.values[j]
    {
      t.SetField(i + n1, right.values[i]);
    }
    assert t.values[..] == left.values + right.values;
    r := t.Snapshot();
  }
}
