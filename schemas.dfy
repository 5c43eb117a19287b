/**
 * TupleDesc: the schema of a tuple, an immutable sequence of (type, nullable name) items
 * (src/java/simpledb/storage/TupleDesc.java).
 */
module Schemas {
  import opened Wrappers

  /** The column type enum `simpledb.common.Type`; its byte length is supplied where needed. */
  type FieldType(==)

  /** The error `getFieldName`, `getFieldType` and `fieldNameToIndex` throw. */
  datatype SchemaError = NoSuchElement

  /** One schema item; a `None` name is a Java `null` name. */
  datatype TDItem = TDItem(fieldType: FieldType, fieldName: Option<string>)

  datatype TupleDesc = TupleDesc(items: seq<TDItem>)

  /** `TDItem.equals`: reference-equal types and null-safe equal names. */
  function ItemEquals(a: TDItem, b: TDItem): (r: bool)
    ensures r <==> a == b
  {
    a.fieldType == b.fieldType && a.fieldName == b.fieldName
  }

  /** `Arrays.equals` over two item arrays, element by element with `TDItem.equals`. */
  function ItemsEqual(a: seq<TDItem>, b: seq<TDItem>): (r: bool)
    ensures r <==> a == b
    decreases |a|
  {
    if |a| != |b| then false
    else if a == [] then true
    else ItemEquals(a[0], b[0]) && ItemsEqual(a[1..], b[1..])
  }

  /** `TupleDesc.equals`: two schemas are equal iff their items are pairwise equal. */
  function Equals(a: TupleDesc, b: TupleDesc): (r: bool)
    ensures r <==> (|a.items| == |b.items| &&
                    forall i | 0 <= i < |a.items| ::
                      a.items[i].fieldType == b.items[i].fieldType &&
                      a.items[i].fieldName == b.items[i].fieldName)
    ensures r <==> a == b
  {
    ItemsEqual(a.items, b.items)
  }

  /** `new TupleDesc(typeAr, fieldAr)`: types and names paired by position. */
  function Make(types: seq<FieldType>, names: seq<Option<string>>): (td: TupleDesc)
    requires |types| <= |names|
    ensures NumFields(td) == |types|
    ensures forall i | 0 <= i < |types| ::
      td.items[i].fieldType == types[i] && td.items[i].fieldName == names[i]
  {
    TupleDesc(seq(|types|, i requires 0 <= i < |types| => TDItem(types[i], names[i])))
  }

  /** `new TupleDesc(typeAr)`: every field gets a null name. */
  function MakeAnonymous(types: seq<FieldType>): (td: TupleDesc)
    ensures NumFields(td) == |types|
    ensures forall i | 0 <= i < |types| ::
      td.items[i].fieldType == types[i] && td.items[i].fieldName.None?
  {
    TupleDesc(seq(|types|, i requires 0 <= i < |types| => TDItem(types[i], None)))
  }

  /** `numFields()`: the length of the item array. */
  function NumFields(td: TupleDesc): (n: nat)
    ensures n == |td.items|
  {
    |td.items|
  }

  /** `getFieldName(i)`: throws exactly for an index outside `0..numFields()-1`. */
  function GetFieldName(td: TupleDesc, i: int): (r: Result<Option<string>, SchemaError>)
    ensures r.Failure? <==> (i < 0 || i >= NumFields(td))
    ensures r.Success? ==> r.value == td.items[i].fieldName
  {
    if i < 0 || i >= |td.items| then Failure(NoSuchElement) else Success(td.items[i].fieldName)
  }

  /** `getFieldType(i)`: throws exactly for an index outside `0..numFields()-1`. */
  function GetFieldType(td: TupleDesc, i: int): (r: Result<FieldType, SchemaError>)
    ensures r.Failure? <==> (i < 0 || i >= NumFields(td))
    ensures r.Success? ==> r.value == td.items[i].fieldType
  {
    if i < 0 || i >= |td.items| then Failure(NoSuchElement) else Success(td.items[i].fieldType)
  }

  /** The linear search of `fieldNameToIndex`, started at index `from`. */
  function IndexFrom(items: seq<TDItem>, name: Option<string>, from: nat): (r: Result<nat, SchemaError>)
    requires from <= |items|
    ensures r.Success? ==> from <= r.value < |items| && items[r.value].fieldName == name &&
                           forall j | from <= j < r.value :: items[j].fieldName != name
    ensures r.Failure? <==> forall j | from <= j < |items| :: items[j].fieldName != name
    decreases |items| - from
  {
    if from == |items| then Failure(NoSuchElement)
    else if items[from].fieldName == name then Success(from)
    else IndexFrom(items, name, from + 1)
  }

  /**
   * `fieldNameToIndex(name)`: the first index whose name is null-safe equal to `name`;
   * throws when no field has that name.
   */
  function FieldNameToIndex(td: TupleDesc, name: Option<string>): (r: Result<nat, SchemaError>)
    ensures r.Success? ==> r.value < NumFields(td) && td.items[r.value].fieldName == name &&
                           forall j | 0 <= j < r.value :: td.items[j].fieldName != name
    ensures r.Failure? <==> forall j | 0 <= j < NumFields(td) :: td.items[j].fieldName != name
  {
    IndexFrom(td.items, name, 0)
  }

  /** The sum of the type lengths of `items`. */
  function SumLengths(items: seq<TDItem>, len: FieldType -> nat): nat
    decreases |items|
  {
    if items == [] then 0 else len(items[0].fieldType) + SumLengths(items[1..], len)
  }

  /**
   * `getSize()`: the byte size of a tuple, given the byte length `len` of each type; every
   * field's length is part of it, and a schema without fields takes no bytes. The exact
   * sum is pinned by `SumLengthsAppend`, `SizeOfUniform` and `MergeSize`.
   */
  function GetSize(td: TupleDesc, len: FieldType -> nat): (size: nat)
    ensures td.items == [] ==> size == 0
    ensures forall i | 0 <= i < NumFields(td) :: len(td.items[i].fieldType) <= size
  {
    SumLengthsBound(td.items, len);
    SumLengths(td.items, len)
  }

  lemma {:induction false} SumLengthsBound(items: seq<TDItem>, len: FieldType -> nat)
    ensures forall i | 0 <= i < |items| :: len(items[i].fieldType) <= SumLengths(items, len)
    decreases |items|
  {
    if items != [] {
      SumLengthsBound(items[1..], len);
      forall i | 1 <= i < |items|
        ensures len(items[i].fieldType) <= SumLengths(items, len)
      {
        assert items[i] == items[1..][i - 1];
      }
    }
  }

  lemma {:induction false} SumLengthsAppend(a: seq<TDItem>, b: seq<TDItem>, len: FieldType -> nat)
    ensures SumLengths(a + b, len) == SumLengths(a, len) + SumLengths(b, len)
    decreases |a|
  {
    if a == [] {
      assert a + b == b;
    } else {
      assert (a + b)[1..] == a[1..] + b;
      SumLengthsAppend(a[1..], b, len);
    }
  }

  /** Every field of a single-type schema contributes that type's length. */
  lemma {:induction false} SizeOfUniform(td: TupleDesc, t: FieldType, len: FieldType -> nat)
    requires forall i | 0 <= i < NumFields(td) :: td.items[i].fieldType == t
    ensures GetSize(td, len) == NumFields(td) * len(t)
    decreases |td.items|
  {
    if td.items != [] {
      SizeOfUniform(TupleDesc(td.items[1..]), t, len);
    }
  }

  /** `merge(td1, td2)`: td1's items followed by td2's. */
  function Merge(td1: TupleDesc, td2: TupleDesc): (r: TupleDesc)
    ensures NumFields(r) == NumFields(td1) + NumFields(td2)
  {
    TupleDesc(td1.items + td2.items)
  }

  /** Item `i` of a merge comes from td1 below `numFields(td1)` and from td2 above. */
  lemma MergeFieldName(td1: TupleDesc, td2: TupleDesc, i: int)
    ensures 0 <= i < NumFields(td1) ==> GetFieldName(Merge(td1, td2), i) == GetFieldName(td1, i)
    ensures NumFields(td1) <= i ==>
      GetFieldName(Merge(td1, td2), i) == GetFieldName(td2, i - NumFields(td1))
    ensures 0 <= i < NumFields(td1) ==> GetFieldType(Merge(td1, td2), i) == GetFieldType(td1, i)
    ensures NumFields(td1) <= i ==>
      GetFieldType(Merge(td1, td2), i) == GetFieldType(td2, i - NumFields(td1))
  {
  }

  /** Merging is associative. */
  lemma MergeAssociative(a: TupleDesc, b: TupleDesc, c: TupleDesc)
    ensures Merge(Merge(a, b), c) == Merge(a, Merge(b, c))
  {
    assert (a.items + b.items) + c.items == a.items + (b.items + c.items);
  }

  /** The size of a merge is the sum of the sizes. */
  lemma MergeSize(td1: TupleDesc, td2: TupleDesc, len: FieldType -> nat)
    ensures GetSize(Merge(td1, td2), len) == GetSize(td1, len) + GetSize(td2, len)
  {
    SumLengthsAppend(td1.items, td2.items, len);
  }

  /** Java's string conversion of a possibly-null string in a `+` concatenation. */
  function NameOrNull(s: Option<string>): string
  {
    if s.None? then "null" else s.value
  }

  /** The name `alias + "." + name`, each null rendered as "null". */
  function AliasedName(alias: Option<string>, name: Option<string>): string
  {
    NameOrNull(alias) + "." + NameOrNull(name)
  }

  /**
   * `deepCopyWithTableAlias(alias)`: same field count and types, every name prefixed with
   * the alias and a dot.
   */
  function WithAlias(td: TupleDesc, alias: Option<string>): (r: TupleDesc)
    ensures NumFields(r) == NumFields(td)
    ensures forall i | 0 <= i < NumFields(td) ::
      r.items[i].fieldType == td.items[i].fieldType &&
      r.items[i].fieldName == Some(AliasedName(alias, td.items[i].fieldName))
  {
    TupleDesc(seq(|td.items|, i requires 0 <= i < |td.items| =>
      TDItem(td.items[i].fieldType, Some(AliasedName(alias, td.items[i].fieldName)))))
  }

  /** Renaming does not change the tuple size. */
  lemma {:induction false} AliasSize(td: TupleDesc, alias: Option<string>, len: FieldType -> nat)
    ensures GetSize(WithAlias(td, alias), len) == GetSize(td, len)
    decreases |td.items|
  {
    if td.items != [] {
      var rest := TupleDesc(td.items[1..]);
      AliasSize(rest, alias, len);
      assert WithAlias(td, alias).items[1..] == WithAlias(rest, alias).items;
    }
  }

  /** Renaming a merge renames each side. */
  lemma AliasMerge(td1: TupleDesc, td2: TupleDesc, alias: Option<string>)
    ensures WithAlias(Merge(td1, td2), alias) == Merge(WithAlias(td1, alias), WithAlias(td2, alias))
  {
    var l := WithAlias(Merge(td1, td2), alias).items;
    var r := Merge(WithAlias(td1, alias), WithAlias(td2, alias)).items;
    assert |l| == |r|;
    forall i | 0 <= i < |l| ensures l[i] == r[i] {
    }
  }

  /** The dotted prefix can be stripped again: equal aliased names have equal rendered names. */
  lemma AliasedNameInjective(alias: Option<string>, x: Option<string>, y: Option<string>)
    ensures AliasedName(alias, x) == AliasedName(alias, y) <==> NameOrNull(x) == NameOrNull(y)
  {
    var p := NameOrNull(alias) + ".";
    if AliasedName(alias, x) == AliasedName(alias, y) {
      assert NameOrNull(x) == AliasedName(alias, x)[|p|..];
      assert NameOrNull(y) == AliasedName(alias, y)[|p|..];
    }
  }

  /**
   * Looking up `alias.s` in the renamed schema finds the first field whose name renders
   * as `s` (a null name renders as "null").
   */
  lemma AliasLookup(td: TupleDesc, alias: Option<string>, s: string)
    ensures var r := FieldNameToIndex(WithAlias(td, alias), Some(NameOrNull(alias) + "." + s));
      (r.Success? ==> NameOrNull(td.items[r.value].fieldName) == s &&
                      forall j | 0 <= j < r.value :: NameOrNull(td.items[j].fieldName) != s) &&
      (r.Failure? <==> forall j | 0 <= j < NumFields(td) :: NameOrNull(td.items[j].fieldName) != s)
  {
    var w := WithAlias(td, alias);
    var key := Some(NameOrNull(alias) + "." + s);
    forall j | 0 <= j < NumFields(td)
      ensures w.items[j].fieldName == key <==> NameOrNull(td.items[j].fieldName) == s
    {
      AliasedNameInjective(alias, td.items[j].fieldName, Some(s));
    }
  }

  /** The renaming examples: alias "t" and field "id" give "t.id"; both null give "null.null". */
  lemma AliasExamples(t: FieldType)
    ensures WithAlias(TupleDesc([TDItem(t, Some("id"))]), Some("t")).items[0].fieldName == Some("t.id")
    ensures WithAlias(TupleDesc([TDItem(t, None)]), None).items[0].fieldName == Some("null.null")
  {
    assert "t" + "." + "id" == "t.id";
    assert "null" + "." + "null" == "null.null";
  }
}
