# SimpleDB query layer, record model and root-pointer page in Dafny

This project models the core of SimpleDB, a teaching relational database engine written in Java:

- **Schemas and records.**
  - `TupleDesc` is an immutable sequence of (type, nullable name) items. It has checked index lookups, a first-match name search, `merge` and alias renaming.
  - `Tuple` is a fixed-length slot array that is updated in place.
  - `RecordId` and `HeapPageId` are value types.
- **The heap-file cursor.** `HeapIterator` walks a table's pages in order, skips empty pages and yields each page's tuples.
- **Pull-based operators.** Each one runs over child cursors with `open`/`fetchNext`/`rewind`/`close`:
  - `Filter` selects tuples.
  - `Join` is the nested-loop join.
  - `HashEquiJoin` is the batched hash join. It loads `MAP_SIZE + 1` build tuples at a time into a key → tuple-list map and re-scans the probe child once per batch.
- **`BTreeRootPtrPage`.** This is the 9-byte page that points at a B+ tree's root and first header page. Its codec is a big-endian int, a signed byte and a big-endian int, and the page has validated setters, a dirty flag and a before image.

Files:

| file | module | models |
|---|---|---|
| wrappers.dfy | `Wrappers`, `Primitives` | `null`/exceptions as `Option`/`Result`/`Outcome`; Java `int` and raw bytes |
| sequences.dfy | `Sequences` | order-preserving selection (`Keep`) and its laws |
| schemas.dfy | `Schemas` | `TupleDesc` |
| page_ids.dfy | `PageIds` | `HeapPageId`; `BTreePageId` as `(tableId, pageNumber, category)` |
| record_ids.dfy | `RecordIds` | `RecordId` |
| tuples.dfy | `Tuples` | `Tuple` (a class over an `array`), `Row` (a tuple's value) |
| cursors.dfy | `Cursors` | a child operator: fixed tuple sequence, position, open flag |
| filters.dfy | `Filters` | `Filter` |
| joins.dfy | `Joins` | `Join` and its specification `NestedLoop` |
| hash_joins.dfy | `HashJoins` | `HashEquiJoin` and its specification `BatchedJoin` |
| join_equivalence.dfy | `JoinEquivalence` | on an equality predicate both joins emit the same multiset |
| heap_files.dfy | `HeapFiles` | `numPages`, the `readPage` offset, `HeapIterator` |
| root_ptr_pages.dfy | `RootPtrPages` | `BTreeRootPtrPage` |

Modelling choices:

- **Operators** are classes whose children are `Cursor` objects. Each operator has a ghost `Remaining()`: the sequence the rest of a full run emits, defined by a specification function over the children's remaining tuples. Each state change is proved against it:
  - `Open` makes `Remaining()` the specification applied to the whole children.
  - `FetchNext` returns `None` exactly when `Remaining()` is empty; otherwise it returns its head and leaves its tail.
- **Operators pass tuples along as values** (`Row`: schema, slots, record id). Join results are built through a fresh `Tuple` filled slot by slot, as `buildResult`/`processList` do.
- **Classes not part of this model are abstract.** `OpIterator`, `JoinPredicate`, `Predicate`, `Field`, `Type`, `BTreePageId` and `TransactionId` are not part of this model and appear in abstract form:
  - predicates are pure functions;
  - `Field`, `Type` and `TransactionId` are opaque types with equality;
  - a type's byte length is a function parameter.
- **The hash join's `rewind()`** rewinds only the two children; the map and list iterator of the batch in progress survive. `HashEquiJoin.Rewind` models exactly that. Its contract states what the following run emits: the stale list's leftovers, then the stale batch probed by the whole right child, then all batches afresh. After a run that ended (`Drained()`), that is exactly the fresh output. See "## Findings".

## Model

| member | source | states |
|---|---|---|
| Schemas.ItemEquals | src/java/simpledb/storage/TupleDesc.java:44-54 | two items are equal iff type and null-safe name agree |
| Schemas.ItemsEqual | src/java/simpledb/storage/TupleDesc.java:199 | elementwise item equality holds iff the item sequences are equal |
| Schemas.Equals | src/java/simpledb/storage/TupleDesc.java:190-200 | two schemas are equal iff they have the same length and agree on type and name at every index, i.e. iff they are the same value |
| Schemas.Make | src/java/simpledb/storage/TupleDesc.java:82-87 | `numFields()` is the type count; item i pairs type i with name i |
| Schemas.MakeAnonymous | src/java/simpledb/storage/TupleDesc.java:96-101 | `numFields()` is the type count; item i has type i and a null name |
| Schemas.GetFieldName | src/java/simpledb/storage/TupleDesc.java:121-126 | fails exactly for i outside 0..numFields()-1, else returns item i's name |
| Schemas.GetFieldType | src/java/simpledb/storage/TupleDesc.java:135-140 | fails exactly for i outside 0..numFields()-1, else returns item i's type |
| Schemas.IndexFrom | src/java/simpledb/storage/TupleDesc.java:150-155 | the search from `from` finds the first matching index at or after it, and fails iff none matches |
| Schemas.FieldNameToIndex | src/java/simpledb/storage/TupleDesc.java:149-156 | returns the smallest index whose name is null-safe equal to `name`; fails iff no field has that name |
| Schemas.SumLengthsAppend | src/java/simpledb/storage/TupleDesc.java:162-164 | the size sum over a concatenation is the sum of the two sums |
| Schemas.SizeOfUniform | src/java/simpledb/storage/TupleDesc.java:162-164 | a schema of one type has size numFields() × that type's length |
| Schemas.Merge | src/java/simpledb/storage/TupleDesc.java:174-179 | the merge has n1 + n2 fields |
| Schemas.MergeFieldName | src/java/simpledb/storage/TupleDesc.java:174-179 | name and type at i come from td1 for i < n1 and from td2 at i - n1 above |
| Schemas.MergeAssociative | src/java/simpledb/storage/TupleDesc.java:174-179 | merge is associative |
| Schemas.NumFields | src/java/simpledb/storage/TupleDesc.java:110-112 | the number of items |
| Schemas.GetSize | src/java/simpledb/storage/TupleDesc.java:162-164 | every field's length is part of the size; a schema without fields takes 0 bytes |
| Schemas.MergeSize | src/java/simpledb/storage/TupleDesc.java:162-179 | the size of a merge is the sum of the two sizes |
| Schemas.WithAlias | src/java/simpledb/storage/TupleDesc.java:181-187 | same field count and types; every name becomes `alias + "." + name`, null rendered as "null" |
| Schemas.AliasSize | src/java/simpledb/storage/TupleDesc.java:181-187 | renaming keeps the tuple size |
| Schemas.AliasMerge | src/java/simpledb/storage/TupleDesc.java:174-187 | renaming a merge equals merging the renamed schemas |
| Schemas.AliasedNameInjective | src/java/simpledb/storage/TupleDesc.java:184 | two aliased names are equal iff the rendered original names are equal |
| Schemas.AliasLookup | src/java/simpledb/storage/TupleDesc.java:149-187 | looking up `alias.s` in the renamed schema finds the first field whose name renders as `s`, and fails iff there is none |
| Schemas.AliasExamples | src/java/simpledb/storage/TupleDesc.java:184 | alias "t" and name "id" give "t.id"; null alias and null name give "null.null" |
| PageIds.HeapPageIdEquals | src/java/simpledb/storage/HeapPageId.java:38-48 | equal iff table id and page number both match |
| PageIds.Serialize | src/java/simpledb/storage/HeapPageId.java:60-67 | a 2-element array from which the constructor rebuilds the same id |
| PageIds.SerializeInjective | src/java/simpledb/storage/HeapPageId.java:60-67 | two ids serialize alike iff they are equal |
| RecordIds.Equals | src/java/simpledb/storage/RecordId.java:41-51 | equal iff tuple numbers and (null-safe) page ids are equal |
| Tuples.Tuple.constructor | src/java/simpledb/storage/Tuple.java:30-33 | numFields() slots, all unset; no record id |
| Tuples.Tuple.SetRecordId | src/java/simpledb/storage/Tuple.java:54-56 | `getRecordId()` is then `rid`; schema and slots unchanged |
| Tuples.Tuple.SetField | src/java/simpledb/storage/Tuple.java:64-66 | `getField(i)` is then `f`; every other slot unchanged |
| Tuples.Tuple.GetTupleDesc | src/java/simpledb/storage/Tuple.java:38-40 | the schema of the tuple's current value |
| Tuples.Tuple.GetRecordId | src/java/simpledb/storage/Tuple.java:45-47 | the record id of the tuple's current value |
| Tuples.Tuple.GetField | src/java/simpledb/storage/Tuple.java:72-74 | slot i of the tuple's current value |
| Tuples.Tuple.ResetTupleDesc | src/java/simpledb/storage/Tuple.java:98-100 | only the schema changes; slots and record id stay |
| Tuples.Tuple.Fields | src/java/simpledb/storage/Tuple.java:91-93 | one value per slot, in index order |
| Tuples.Tuple.ToString | src/java/simpledb/storage/Tuple.java:84-86 | defined exactly when every slot is set (a null slot makes `toString` throw) |
| Tuples.Tuple.ToStringSplits | src/java/simpledb/storage/Tuple.java:84-86 | splitting the string at tabs gives back the field strings, one per slot, when none contains a tab |
| Tuples.SplitJoin | src/java/simpledb/storage/Tuple.java:85 | joining with a separator is undone by splitting at it |
| Tuples.Concatenate | src/java/simpledb/execution/Join.java:120-131 | the fresh tuple has the output schema, no record id, the left slots at 0..n1-1 and the right slots after them |
| Cursors.Cursor.Next | src/java/simpledb/execution/Filter.java:66-67 | `next()` returns the tuple at the position and removes it from the remaining sequence |
| Cursors.Cursor.Rewind | src/java/simpledb/execution/Join.java:105 | a rewound child produces its whole sequence again |
| Sequences.KeepSound | src/java/simpledb/execution/Filter.java:64-73 | everything kept passes the test and comes from the input |
| Sequences.KeepComplete | src/java/simpledb/execution/Filter.java:64-73 | each passing element is kept as often as it occurs; no failing element is kept |
| Sequences.KeepAppend | src/java/simpledb/execution/Filter.java:64-73 | selection distributes over concatenation |
| Filters.SelectedIsSelection | src/java/simpledb/execution/Filter.java:64-73 | a full run emits only child tuples that pass `p`, and every passing tuple with its multiplicity |
| Filters.Filter.constructor | src/java/simpledb/execution/Filter.java:27-30 | stores the predicate and the child |
| Filters.Filter.GetTupleDesc | src/java/simpledb/execution/Filter.java:36-38 | the child's schema, unchanged |
| Filters.Filter.Open | src/java/simpledb/execution/Filter.java:40-44 | the child is opened; the run ahead is the child's whole sequence, filtered |
| Filters.Filter.Close | src/java/simpledb/execution/Filter.java:46-49 | the child is closed |
| Filters.Filter.Rewind | src/java/simpledb/execution/Filter.java:51-54 | the run ahead is again the child's whole sequence, filtered |
| Filters.Filter.FetchNext | src/java/simpledb/execution/Filter.java:64-73 | returns the first remaining child tuple passing `p`, dropping rejected ones; `None` iff nothing passing remains, and then the child is exhausted |
| Filters.Filter.GetChildren | src/java/simpledb/execution/Filter.java:75-78 | exactly the one child |
| Filters.Filter.SetChildren | src/java/simpledb/execution/Filter.java:80-83 | the first element becomes the child |
| Joins.Pairs | src/java/simpledb/execution/Join.java:98-108 | `l` concatenated with each given right tuple, in order: one output per right tuple |
| Joins.NestedLoopAppend | src/java/simpledb/execution/Join.java:98-108 | the join over a split left side is the two joins in sequence |
| Joins.NestedLoopSound | src/java/simpledb/execution/Join.java:98-131 | every output is `concat(l, r)` for a left `l` and a right `r` that the predicate accepts |
| Joins.PairsIndex | src/java/simpledb/execution/Join.java:120-131 | each pair of a left tuple is its concatenation with some right tuple |
| Joins.CrossProductSize | src/java/simpledb/execution/Join.java:98-118 | with an always-true predicate the output size is \|left\| × \|right\| |
| Joins.Join.constructor | src/java/simpledb/execution/Join.java:30-35 | the output schema is the merge of the child schemas, fixed at construction |
| Joins.Join.GetTupleDesc | src/java/simpledb/execution/Join.java:58-60 | n1 + n2 items: the left schema's, then the right schema's |
| Joins.Join.GetJoinField1Name | src/java/simpledb/execution/Join.java:44-46 | the left schema's name at `field1`; fails iff the index is out of range |
| Joins.Join.GetJoinField2Name | src/java/simpledb/execution/Join.java:51-53 | the right schema's name at `field2`; fails iff the index is out of range |
| Joins.Join.Open | src/java/simpledb/execution/Join.java:62-68 | `cur` is absent iff the left child is empty; the run ahead is the full nested loop |
| Joins.Join.Close | src/java/simpledb/execution/Join.java:70-75 | both children closed, `cur` cleared |
| Joins.Join.Rewind | src/java/simpledb/execution/Join.java:77-80 | the run ahead is again the full nested loop |
| Joins.Join.GetRightTuple | src/java/simpledb/execution/Join.java:110-118 | the next right tuple the predicate pairs with `cur`; `None` only once the right child is exhausted |
| Joins.Join.BuildResult | src/java/simpledb/execution/Join.java:120-131 | `concat(cur, right)`: left fields at 0..n1-1, right fields after them |
| Joins.Join.NextLeft | src/java/simpledb/execution/Join.java:104-105 | the next left tuple with the right child rewound: the run ahead is the nested loop over the remaining left tuples |
| Joins.Join.FetchNext | src/java/simpledb/execution/Join.java:98-108 | pops the next tuple of the nested loop; `None` iff nothing remains, and then `cur` stays absent |
| HashJoins.KeyRowsAppend | src/java/simpledb/execution/HashEquiJoin.java:63-66 | the tuples with a key, over a concatenation, are those of each part in order |
| HashJoins.KeyRowsSound | src/java/simpledb/execution/HashEquiJoin.java:65 | the tuples listed under a key carry that key and come from the batch |
| HashJoins.GroupAt | src/java/simpledb/execution/HashEquiJoin.java:60-73 | a key is in the map iff some loaded tuple has it, and its list is exactly those tuples in arrival order |
| HashJoins.GroupList | src/java/simpledb/execution/HashEquiJoin.java:145-149 | every list in the map is non-empty and holds only loaded tuples carrying its key |
| HashJoins.PairsLeft | src/java/simpledb/execution/HashEquiJoin.java:116-131 | one output per build tuple of the list |
| HashJoins.ProbeMapIsProbeBatch | src/java/simpledb/execution/HashEquiJoin.java:140-153 | probing the built map equals probing the batch by key |
| HashJoins.BatchSize | src/java/simpledb/execution/HashEquiJoin.java:63-71 | a batch holds MAP_SIZE + 1 tuples while that many remain (the count is tested after the add), otherwise all that remain |
| HashJoins.BatchedJoinStep | src/java/simpledb/execution/HashEquiJoin.java:155-161 | a full run is the first batch probed by all of the right child, followed by the run over the rest |
| HashJoins.ProbeEmpty | src/java/simpledb/execution/HashEquiJoin.java:157-161 | an empty batch emits nothing |
| HashJoins.HashEquiJoin.constructor | src/java/simpledb/execution/HashEquiJoin.java:34-39 | the output schema is the merge of the child schemas; no tuples, iterator or map yet |
| HashJoins.HashEquiJoin.GetTupleDesc | src/java/simpledb/execution/HashEquiJoin.java:45-47 | n1 + n2 items: the left schema's, then the right schema's |
| HashJoins.HashEquiJoin.LoadMap | src/java/simpledb/execution/HashEquiJoin.java:60-73 | the map is cleared and then groups the next min(MAP_SIZE + 1, remaining) build tuples by key, in order; true iff it loaded any |
| HashJoins.HashEquiJoin.Add | src/java/simpledb/execution/HashEquiJoin.java:64-66 | `t1` is the tuple; it is appended to the list under its key |
| HashJoins.HashEquiJoin.Open | src/java/simpledb/execution/HashEquiJoin.java:75-81 | the first batch is the first min(MAP_SIZE + 1, n) left tuples and the right child is at its start; the run ahead is the kept list's leftovers, then the full batched join |
| HashJoins.HashEquiJoin.LoadBatch | src/java/simpledb/execution/HashEquiJoin.java:156-157 | the new batch probed by the whole right child, then the later batches, make up the run over the build child's rest; loaded iff the build child had tuples left |
| HashJoins.HashEquiJoin.Close | src/java/simpledb/execution/HashEquiJoin.java:83-91 | both children closed; `t1`, `t2`, the iterator and the map cleared |
| HashJoins.HashEquiJoin.Rewind | src/java/simpledb/execution/HashEquiJoin.java:93-96 | map and iterator kept; the run ahead is the stale leftovers, the stale batch probed again, then all batches; exactly all batches after a drained run |
| HashJoins.HashEquiJoin.RewindAsIntended | src/java/simpledb/execution/HashEquiJoin.java:93-96 | `close()` then `open()`: the run ahead is exactly the full batched join, from any state |
| HashJoins.HashEquiJoin.ProcessList | src/java/simpledb/execution/HashEquiJoin.java:116-131 | `t1` is the list's next build tuple; returns `concat(t1, t2)` and pops it from the run ahead |
| HashJoins.HashEquiJoin.StartList | src/java/simpledb/execution/HashEquiJoin.java:149-151 | emits the first pair of the probe tuple's key list; the rest of that list's pairs are left for the iterator |
| HashJoins.HashEquiJoin.ProbeStep | src/java/simpledb/execution/HashEquiJoin.java:140-152 | reads one probe tuple; on a key hit emits its first pair, otherwise nothing is owed for it |
| HashJoins.HashEquiJoin.Probe | src/java/simpledb/execution/HashEquiJoin.java:139-153 | emits the next pair of the current batch, or `None` once the right child is exhausted, leaving only the later batches |
| HashJoins.HashEquiJoin.FetchNext | src/java/simpledb/execution/HashEquiJoin.java:134-162 | pops the next tuple of the run ahead; `None` iff it is empty, and then map and list are drained |
| HashJoins.HashEquiJoin.NextBatch | src/java/simpledb/execution/HashEquiJoin.java:155-161 | right child rewound, next batch loaded; the run ahead is exactly the later batches; loaded iff build tuples were left |
| HashJoins.RewindAfterOpenRepeatsBatch | src/java/simpledb/execution/HashEquiJoin.java:93-96 | with one matching pair a fresh run emits it once, a run rewound right after `open()` twice |
| HashJoins.OpenThenRewind | src/java/simpledb/execution/HashEquiJoin.java:75-96 | through the operator's own `open()` and `rewind()`: over `[l]` and `[r]` with equal keys the run ahead is `concat(l, r)` twice, the full join once |
| JoinEquivalence.NestedLoopConsRight | src/java/simpledb/execution/Join.java:98-118 | splitting off the first right tuple splits the join's multiset into its column and the rest |
| JoinEquivalence.ColumnIsKeyRows | src/java/simpledb/execution/HashEquiJoin.java:145 | under an equality predicate, the left tuples a right tuple meets are the map list under its key |
| JoinEquivalence.ProbeBatchIsNestedLoop | src/java/simpledb/execution/HashEquiJoin.java:139-153 | probing one batch emits the batch's nested loop, as a multiset |
| JoinEquivalence.NestedLoopNoRight | src/java/simpledb/execution/Join.java:98-118 | no right tuples, no output |
| JoinEquivalence.HashJoinIsNestedLoop | src/java/simpledb/execution/HashEquiJoin.java:134-162 | for an equality predicate, a full hash-join run and a full nested-loop run emit the same multiset, for every batch size |
| HeapFiles.ToInt32 | src/java/simpledb/storage/HeapFile.java:94 | the `(int)` cast keeps in-range values and is congruent modulo 2^32 otherwise |
| HeapFiles.NumPages | src/java/simpledb/storage/HeapFile.java:93-95 | below 2^31 pages: n whole pages fit in the file and n + 1 do not |
| HeapFiles.PageOffset | src/java/simpledb/storage/HeapFile.java:74 | the offset is a multiple of the page size whose quotient is the page number |
| HeapFiles.PageWithinFile | src/java/simpledb/storage/HeapFile.java:72-77 | every page below numPages() is read entirely from inside the file |
| HeapFiles.PageOfOffset | src/java/simpledb/storage/HeapFile.java:74 | byte x lies in page p iff x / pageSize == p |
| HeapFiles.FlattenEmpty | src/java/simpledb/storage/HeapFile.java:140-155 | nothing is left iff every remaining page is empty |
| HeapFiles.FlattenMember | src/java/simpledb/storage/HeapFile.java:138-161 | a tuple is yielded iff it is on one of the remaining pages |
| HeapFiles.FlattenSource | src/java/simpledb/storage/HeapFile.java:138-161 | a yielded tuple comes from a remaining page |
| HeapFiles.FlattenHas | src/java/simpledb/storage/HeapFile.java:138-161 | every tuple on a remaining page is yielded |
| HeapFiles.FlattenLength | src/java/simpledb/storage/HeapFile.java:138-161 | the number yielded is the total over the remaining pages |
| HeapFiles.HeapIterator.constructor | src/java/simpledb/storage/HeapFile.java:127-130 | no page iterator and no page id yet |
| HeapFiles.HeapIterator.Open | src/java/simpledb/storage/HeapFile.java:132-136 | page 0 of this table, unconditionally; the run ahead is all pages' tuples in order |
| HeapFiles.HeapIterator.ReadNext | src/java/simpledb/storage/HeapFile.java:138-161 | pops the next tuple in page order, skipping empty pages; `None` iff no later page has a tuple, and then both fields are null |
| HeapFiles.HeapIterator.TakeFromPage | src/java/simpledb/storage/HeapFile.java:160 | the current page iterator's next tuple, popped from the run ahead |
| HeapFiles.HeapIterator.NextPage | src/java/simpledb/storage/HeapFile.java:144-155 | the page id becomes pn + 1 with that page's iterator kept only if the page has a tuple, or past the last page both become null; the run ahead is unchanged and the loop measure falls |
| HeapFiles.HeapIterator.Close | src/java/simpledb/storage/HeapFile.java:174-178 | both the iterator and the page id cleared; nothing is left |
| HeapFiles.HeapIterator.Rewind | src/java/simpledb/storage/HeapFile.java:166-169 | back to page 0; the run ahead is again all tuples |
| RootPtrPages.EncodeInt | src/java/simpledb/index/BTreeRootPtrPage.java:92 | `writeInt` writes four bytes |
| RootPtrPages.Unsigned | src/java/simpledb/index/BTreeRootPtrPage.java:47 | four bytes read as a number in 0..2^32-1 |
| RootPtrPages.DecodeInt | src/java/simpledb/index/BTreeRootPtrPage.java:47 | congruent to the big-endian unsigned value modulo 2^32; negative iff the top bit is set |
| RootPtrPages.EncodeByte | src/java/simpledb/index/BTreeRootPtrPage.java:99 | the byte written is congruent to the category modulo 256 |
| RootPtrPages.DecodeByte | src/java/simpledb/index/BTreeRootPtrPage.java:48 | a value in -128..127 congruent to the byte modulo 256 |
| RootPtrPages.DecodeEncodeInt | src/java/simpledb/index/BTreeRootPtrPage.java:47-51 | `readInt` after `writeInt` gives back every int |
| RootPtrPages.EncodeDecodeInt | src/java/simpledb/index/BTreeRootPtrPage.java:47-51 | `writeInt` after `readInt` gives back every four bytes |
| RootPtrPages.ByteRoundTrip | src/java/simpledb/index/BTreeRootPtrPage.java:48 | a category survives `(byte)` then `readByte` iff it lies in -128..127 |
| RootPtrPages.EncodeDecodeByte | src/java/simpledb/index/BTreeRootPtrPage.java:99 | `readByte` then `(byte)` gives back every byte |
| RootPtrPages.Encode | src/java/simpledb/index/BTreeRootPtrPage.java:86-118 | the image is PAGE_SIZE = 9 bytes |
| RootPtrPages.Decode | src/java/simpledb/index/BTreeRootPtrPage.java:42-54 | parsing fails iff fewer than 9 bytes are given |
| RootPtrPages.DecodeEncode | src/java/simpledb/index/BTreeRootPtrPage.java:78-86 | parsing `getPageData()` gives back root, category and header, for a category that fits a byte |
| RootPtrPages.EncodeDecode | src/java/simpledb/index/BTreeRootPtrPage.java:42-118 | re-encoding a parsed image gives back its first 9 bytes |
| RootPtrPages.EmptyPageData | src/java/simpledb/index/BTreeRootPtrPage.java:127-129 | 9 zero bytes |
| RootPtrPages.EmptyPageHasNoPointers | src/java/simpledb/index/BTreeRootPtrPage.java:120-129 | the empty image parses to root 0, category 0, header 0 |
| RootPtrPages.GetIdFor | src/java/simpledb/index/BTreeRootPtrPage.java:74-76 | page 0 of the table, category ROOT_PTR |
| RootPtrPages.RootPtrPage.constructor | src/java/simpledb/index/BTreeRootPtrPage.java:42-54 | the fields are the parsed image; the before image is the page itself; clean |
| RootPtrPages.RootPtrPage.GetPageData | src/java/simpledb/index/BTreeRootPtrPage.java:86-118 | 9 bytes that parse back to the current fields |
| RootPtrPages.RootPtrPage.SetBeforeImage | src/java/simpledb/index/BTreeRootPtrPage.java:56-58 | the before image becomes the current image, so `getBeforeImage()` has the current fields |
| RootPtrPages.RootPtrPage.MarkDirty | src/java/simpledb/index/BTreeRootPtrPage.java:131-136 | the flag becomes `d`; the dirtier is recorded only when `d`; `isDirty()` is then `tid` or null |
| RootPtrPages.RootPtrPage.IsDirty | src/java/simpledb/index/BTreeRootPtrPage.java:138-144 | the dirtier while dirty, null when clean |
| RootPtrPages.RootPtrPage.GetRootId | src/java/simpledb/index/BTreeRootPtrPage.java:165-170 | null iff root is 0, else (this table, root, rootCategory) |
| RootPtrPages.RootPtrPage.SetRootId | src/java/simpledb/index/BTreeRootPtrPage.java:178-191 | null clears the root; a foreign table or a category other than internal/leaf fails with the source's message and changes nothing; otherwise `getRootId()` returns the id (page number nonzero) |
| RootPtrPages.RootPtrPage.GetHeaderId | src/java/simpledb/index/BTreeRootPtrPage.java:198-203 | null iff header is 0, else (this table, header, HEADER) |
| RootPtrPages.RootPtrPage.SetHeaderId | src/java/simpledb/index/BTreeRootPtrPage.java:211-223 | null clears the header; a foreign table or a non-header category fails with the source's message and changes nothing; otherwise `getHeaderId()` returns the id (page number nonzero) |
| RootPtrPages.Parse | src/java/simpledb/index/BTreeRootPtrPage.java:42-54 | the constructor fails iff the image has fewer than 9 bytes; otherwise a fresh page with the parsed fields and its own before image |
| RootPtrPages.EmptyPageIds | src/java/simpledb/index/BTreeRootPtrPage.java:120-129 | a page parsed from the empty image has no root and no header |
| RootPtrPages.RootPtrPage.GetId | src/java/simpledb/index/BTreeRootPtrPage.java:63-65 | the page's own id |
| RootPtrPages.RootPtrPage.GetBeforeImage | src/java/simpledb/index/BTreeRootPtrPage.java:149-158 | the fields parsed from the saved image, which re-encode to that image |

## Left out

- I/O is not modelled:
  - The buffer pool, `RandomAccessFile` reads, locking and permissions are abstracted. A heap file is the sequence of its pages' tuple lists, and page `p >= numPages()` reads as an empty page.
  - The table id (a hash of the file path) is a parameter.
  - `writePage`, `insertTuple` and `deleteTuple` are empty stubs and are not modelled.
- Transaction aborts, `DbException`s from the page cache and `DeadlockException` are not modelled; the children never fail.
- Concrete `hashCode` values (`Objects.hash`, `Arrays.hashCode`) are not modelled. Every `equals` above is proved to coincide with Dafny's value equality, so any hash computed from the fields agrees on equal values.
- Java serialization, `TDItem.toString`, the `TupleDesc` iterator, `getFile`, `getPageSize` and the getters of the predicate objects are not modelled. They carry no logic.
- `SeqScan` is not modelled. It is a wrapper around a file iterator and the alias renaming; the renaming is `Schemas.WithAlias`.
- `IntegerAggregator` is not modelled; it is an unimplemented stub.
- The `AbstractDbFileIterator`/`Operator` lookahead (`hasNext`/`next` over `fetchNext`/`readNext`) is not part of this model. Operators expose `FetchNext`/`ReadNext` returning `None` at the end.
- Join and HashEquiJoin `setChildren`/`getChildren`, and HashEquiJoin's join field names, are not modelled. Their children are fixed at construction; Filter's are modelled.
- HashJoins.HashEquiJoin.constructor: requires the join field indices to be in range for the child schemas. In the source an out-of-range index makes the first key lookup throw.
- HashJoins.HashEquiJoin.FetchNext: requires `Planned()`, the later batches being in step with the build child. `Open` and both rewinds establish it; calling `fetchNext` on a never-opened operator is not modelled.
- The source's recursion `return fetchNext()` is modelled by a recursive call, with the shrinking build child as its measure.
- RootPtrPages.RootPtrPage.constructor: requires at least 9 bytes. The throwing case is `RootPtrPages.Parse` returning `None`. Bytes past the ninth are ignored.
- `getBeforeImage()` returns the decoded fields rather than a new page object. `System.exit` on a failed parse cannot happen, because the before image always holds 9 bytes.
- HeapFiles.HeapIterator.constructor: requires the file to have at most 2^31 - 1 pages, so that page numbers are Java `int`s, and takes one tuple list per page that `numPages()` counts. `numPages()` of a larger file is wrapped by `HeapFiles.ToInt32`, but the iterator over such a file is not modelled.
- Tuples.Tuple.ToString: `Field.toString` is a function parameter; a null slot (where the source throws) gives `None`.
- Schemas.GetSize: the byte length of each `Type` is a function parameter, and the size is the exact sum; the Java `int` sum would wrap past 2^31 - 1 bytes, which is not modelled.
- Schemas.Make: requires at least as many names as types; with a shorter name array the source throws `ArrayIndexOutOfBoundsException`, which is not modelled.
- Filters.Filter.SetChildren: requires a non-empty array; with an empty one the source throws `ArrayIndexOutOfBoundsException`, which is not modelled.

## Findings

| source | as written | input that shows it | evidently intended | confidence | as-written member | corrected member |
|---|---|---|---|---|---|---|
| src/java/simpledb/execution/HashEquiJoin.java:93-96 | `rewind()` rewinds only the children; the map and list iterator of the batch in progress survive | build child `[l]`, probe child `[r]` with equal keys: `open()` then `rewind()` makes the run emit `concat(l, r)` twice instead of once | `rewind()` replays the run exactly, as `close(); open()` does for `Filter` and `Join` | medium (not executed; the stale state is harmless after a run that ended) | HashJoins.OpenThenRewind | HashJoins.HashEquiJoin.RewindAsIntended |
