/**
 * BTreeRootPtrPage: the one fixed-size page of a B+ tree file that points at the tree's root
 * page and its first header page (src/java/simpledb/index/BTreeRootPtrPage.java). On disk it is
 * 9 bytes: the root page number as a big-endian 32-bit int, the root's category as one byte,
 * then the header page number as a big-endian 32-bit int.
 */
module RootPtrPages {
  import opened Wrappers
  import opened Primitives
  import opened PageIds

  /** A transaction id (`simpledb.transaction.TransactionId`), compared by value. */
  type TransactionId(==)

  const PAGE_SIZE: nat := 9

  /** `DataOutputStream.writeInt`: four bytes, most significant first, two's complement. */
  function EncodeInt(x: int32): (bs: seq<byte>)
    ensures |bs| == 4
  {
    var u := if x < 0 then x + 0x1_0000_0000 else x;
    [u / 0x100_0000, (u / 0x1_0000) % 0x100, (u / 0x100) % 0x100, u % 0x100]
  }

  /** Four bytes as an unsigned big-endian number. */
  function Unsigned(bs: seq<byte>): (u: int)
    requires |bs| == 4
    ensures 0 <= u < 0x1_0000_0000
  {
    (bs[0] as int) * 0x100_0000 + (bs[1] as int) * 0x1_0000 + (bs[2] as int) * 0x100 + bs[3] as int
  }

  /** `DataInputStream.readInt` on four bytes. */
  function DecodeInt(bs: seq<byte>): (x: int32)
    requires |bs| == 4
    ensures (x - Unsigned(bs)) % 0x1_0000_0000 == 0
    ensures x < 0 <==> bs[0] >= 0x80
  {
    var u := Unsigned(bs);
    if u <= INT_MAX then u else u - 0x1_0000_0000
  }

  lemma DecodeEncodeInt(x: int32)
    ensures DecodeInt(EncodeInt(x)) == x
  {
    var u := if x < 0 then x + 0x1_0000_0000 else x;
    var a := u / 0x100;
    var b := a / 0x100;
    var c := b / 0x100;
    DivMod(b, (a % 0x100) * 0x100 + u % 0x100, 0x1_0000);
    DivMod(c, ((b % 0x100) * 0x100 + a % 0x100) * 0x100 + u % 0x100, 0x100_0000);
    assert EncodeInt(x) == [c as byte, (b % 0x100) as byte, (a % 0x100) as byte, (u % 0x100) as byte];
  }

  lemma EncodeDecodeInt(bs: seq<byte>)
    requires |bs| == 4
    ensures EncodeInt(DecodeInt(bs)) == bs
  {
    var u := Unsigned(bs);
    var q1 := (bs[0] as int) * 0x100 + bs[1] as int;
    var q2 := q1 * 0x100 + bs[2] as int;
    assert u == q2 * 0x100 + bs[3] as int;
    assert u == q1 * 0x1_0000 + ((bs[2] as int) * 0x100 + bs[3] as int);
    assert u == (bs[0] as int) * 0x100_0000 + (((bs[1] as int) * 0x100 + bs[2] as int) * 0x100 + bs[3] as int);
    DivMod(q2, bs[3], 0x100);
    DivMod(q1, bs[2], 0x100);
    DivMod(bs[0], bs[1], 0x100);
    DivMod(q1, (bs[2] as int) * 0x100 + bs[3] as int, 0x1_0000);
    DivMod(bs[0], ((bs[1] as int) * 0x100 + bs[2] as int) * 0x100 + bs[3] as int, 0x100_0000);
    var es := EncodeInt(DecodeInt(bs));
    assert es[0] == bs[0] && es[1] == bs[1] && es[2] == bs[2] && es[3] == bs[3];
  }

  /** `writeByte((byte) c)`: the low eight bits of `c`. */
  function EncodeByte(c: int32): (b: byte)
    ensures (c - b) % 0x100 == 0
  {
    c % 0x100
  }

  /** `readByte()`: one byte read back as a signed value in -128..127. */
  function DecodeByte(b: byte): (c: int32)
    ensures -0x80 <= c < 0x80 && (c - b) % 0x100 == 0
  {
    if b < 0x80 then b else b - 0x100
  }

  /** A category survives the byte round trip exactly when it fits a signed byte. */
  lemma ByteRoundTrip(c: int32)
    ensures DecodeByte(EncodeByte(c)) == c <==> -0x80 <= c < 0x80
  {
  }

  lemma EncodeDecodeByte(b: byte)
    ensures EncodeByte(DecodeByte(b)) == b
  {
  }

  /** The three fields a root pointer page stores. */
  datatype RootPtr = RootPtr(root: int32, rootCategory: int32, header: int32)

  /** `getPageData()`. */
  function Encode(s: RootPtr): (data: seq<byte>)
    ensures |data| == PAGE_SIZE
  {
    EncodeInt(s.root) + [EncodeByte(s.rootCategory)] + EncodeInt(s.header)
  }

  /**
   * The constructor's parse: the first nine bytes, `None` when fewer are given (the read
   * stream then hits its end and the constructor throws).
   */
  function Decode(data: seq<byte>): (r: Option<RootPtr>)
    ensures r.Some? <==> |data| >= PAGE_SIZE
  {
    if |data| < PAGE_SIZE then None
    else Some(RootPtr(DecodeInt(data[0..4]), DecodeByte(data[4]), DecodeInt(data[5..9])))
  }

  /** A stored category always fits a signed byte, since it was read as one or set to a known category. */
  predicate CategoryFits(s: RootPtr)
  {
    -0x80 <= s.rootCategory < 0x80
  }

  /** The documented invariant: parsing `getPageData()` rebuilds the same page. */
  lemma DecodeEncode(s: RootPtr)
    requires CategoryFits(s)
    ensures Decode(Encode(s)) == Some(s)
  {
    var data := Encode(s);
    assert data[0..4] == EncodeInt(s.root);
    assert data[5..9] == EncodeInt(s.header);
    DecodeEncodeInt(s.root);
    DecodeEncodeInt(s.header);
  }

  /** And the other way: re-encoding a parsed page image gives its first nine bytes back. */
  lemma EncodeDecode(data: seq<byte>)
    requires |data| >= PAGE_SIZE
    ensures Decode(data).Some? && CategoryFits(Decode(data).value)
    ensures Encode(Decode(data).value) == data[..PAGE_SIZE]
  {
    EncodeDecodeInt(data[0..4]);
    EncodeDecodeInt(data[5..9]);
    EncodeDecodeByte(data[4]);
    assert data[..PAGE_SIZE] == data[0..4] + [data[4]] + data[5..9];
  }

  /** `createEmptyPageData()`: nine zero bytes. */
  function EmptyPageData(): (data: seq<byte>)
    ensures |data| == PAGE_SIZE && forall i | 0 <= i < |data| :: data[i] == 0
  {
    seq(PAGE_SIZE, _ => 0)
  }

  /** An empty page parses to no root and no header. */
  lemma EmptyPageHasNoPointers()
    ensures Decode(EmptyPageData()) == Some(RootPtr(0, 0, 0))
  {
    var data := EmptyPageData();
    assert data[0..4] == [0, 0, 0, 0] && data[5..9] == [0, 0, 0, 0];
  }

  /** `getId(tableid)`: the root pointer page is page 0 of its table, of category ROOT_PTR. */
  function GetIdFor(tableId: int32): (id: BTreePageId)
    ensures id.tableId == tableId && id.pageNumber == 0 && id.category == ROOT_PTR
  {
    BTreePageId(tableId, 0, ROOT_PTR)
  }

  /** The `DbException`s the setters throw. */
  datatype DbException = DbException(message: string)

  class RootPtrPage {
    const pid: BTreePageId
    var root: int32
    var rootCategory: int32
    var header: int32
    var dirty: bool
    var dirtier: Option<TransactionId>
    /** The before image, as bytes. */
    var oldData: seq<byte>

    ghost predicate Valid()
      reads this
    {
      CategoryFits(State()) && |oldData| == PAGE_SIZE && CategoryFits(Decode(oldData).value)
    }

    /** The stored fields. */
    function State(): RootPtr
      reads this
    {
      RootPtr(root, rootCategory, header)
    }

    /** `new BTreeRootPtrPage(id, data)` on an image of at least nine bytes; its before image is its own. */
    constructor (id: BTreePageId, data: seq<byte>)
      requires |data| >= PAGE_SIZE
      ensures Valid() && pid == id && Some(State()) == Decode(data)
      ensures oldData == data[..PAGE_SIZE] && GetBeforeImage() == State()
      ensures !dirty && dirtier.None?
    {
      pid := id;
      var s := Decode(data).value;
      root := s.root;
      rootCategory := s.rootCategory;
      header := s.header;
      dirty := false;
      dirtier := None;
      EncodeDecode(data);
      oldData := Encode(s);
      DecodeEncode(s);
    }

    /** `getPageData()`: the nine-byte image of the current fields. */
    function GetPageData(): (data: seq<byte>)
      reads this
      requires Valid()
      ensures |data| == PAGE_SIZE && Decode(data) == Some(State())
    {
      DecodeEncode(State());
      Encode(State())
    }

    /** `setBeforeImage()`: the current image becomes the before image. */
    method SetBeforeImage()
      requires Valid()
      modifies this`oldData
      ensures Valid() && oldData == GetPageData()
      ensures GetBeforeImage() == State()
    {
      oldData := GetPageData();
    }

    /** `getBeforeImage()`: the page parsed from the before image, as its fields. */
    function GetBeforeImage(): (r: RootPtr)
      reads this
      requires Valid()
      ensures Decode(oldData) == Some(r) && Encode(r) == oldData
    {
      EncodeDecode(oldData);
      Decode(oldData).value
    }

    /** `getId()`. */
    function GetId(): (id: BTreePageId)
      reads this
      ensures id == pid
    {
      pid
    }

    /** `markDirty(d, tid)`: the flag is set to `d`; the dirtier is only recorded when `d` holds. */
    method MarkDirty(d: bool, tid: Option<TransactionId>)
      modifies this`dirty, this`dirtier
      ensures dirty == d && dirtier == (if d then tid else old(dirtier))
      ensures IsDirty() == (if d then tid else None)
    {
      dirty := d;
      if d {
        dirtier := tid;
      }
    }

    /** `isDirty()`: the last dirtier while the flag is set, else `None`. */
    function IsDirty(): (r: Option<TransactionId>)
      reads this
      ensures r.Some? ==> dirty && r == dirtier
      ensures dirty ==> r == dirtier
      ensures !dirty ==> r.None?
    {
      if dirty then dirtier else None
    }

    /** `getRootId()`: no root while the root page number is 0. */
    function GetRootId(): (r: Option<BTreePageId>)
      reads this
      ensures r.None? <==> root == 0
      ensures r.Some? ==>
        r.value.tableId == pid.tableId && r.value.pageNumber == root && r.value.category == rootCategory
    {
      if root == 0 then None else Some(BTreePageId(pid.tableId, root, rootCategory))
    }

    /**
     * `setRootId(id)`: `None` clears the root; an id of another table, or one that is neither
     * an internal nor a leaf page, is refused and nothing changes.
     */
    method SetRootId(id: Option<BTreePageId>) returns (o: Outcome<DbException>)
      requires Valid()
      modifies this`root, this`rootCategory
      ensures Valid()
      ensures id.None? ==> o.Pass? && root == 0 && rootCategory == old(rootCategory) && GetRootId().None?
      ensures id.Some? && id.value.tableId != pid.tableId ==>
        o == Fail(DbException("table id mismatch in setRootId"))
      ensures id.Some? && id.value.tableId == pid.tableId && id.value.category != INTERNAL
              && id.value.category != LEAF ==>
        o == Fail(DbException("root must be an internal node or leaf node"))
      ensures o.Fail? ==> root == old(root) && rootCategory == old(rootCategory)
      ensures o.Pass? <==> id.None? || (id.value.tableId == pid.tableId
                                        && (id.value.category == INTERNAL || id.value.category == LEAF))
      ensures o.Pass? && id.Some? ==> root == id.value.pageNumber && rootCategory == id.value.category
      ensures o.Pass? && id.Some? && id.value.pageNumber != 0 ==> GetRootId() == id
    {
      if id.None? {
        root := 0;
      } else {
        if id.value.tableId != pid.tableId {
          return Fail(DbException("table id mismatch in setRootId"));
        }
        if id.value.category != INTERNAL && id.value.category != LEAF {
          return Fail(DbException("root must be an internal node or leaf node"));
        }
        root := id.value.pageNumber;
        rootCategory := id.value.category;
      }
      return Pass;
    }

    /** `getHeaderId()`: no header page while the header page number is 0. */
    function GetHeaderId(): (r: Option<BTreePageId>)
      reads this
      ensures r.None? <==> header == 0
      ensures r.Some? ==>
        r.value.tableId == pid.tableId && r.value.pageNumber == header && r.value.category == HEADER
    {
      if header == 0 then None else Some(BTreePageId(pid.tableId, header, HEADER))
    }

    /**
     * `setHeaderId(id)`: `None` clears the header pointer; an id of another table, or one that
     * is not a header page, is refused and nothing changes.
     */
    method SetHeaderId(id: Option<BTreePageId>) returns (o: Outcome<DbException>)
      requires Valid()
      modifies this`header
      ensures Valid()
      ensures id.None? ==> o.Pass? && header == 0 && GetHeaderId().None?
      ensures id.Some? && id.value.tableId != pid.tableId ==>
        o == Fail(DbException("table id mismatch in setHeaderId"))
      ensures id.Some? && id.value.tableId == pid.tableId && id.value.category != HEADER ==>
        o == Fail(DbException("header must be of type BTreePageId.HEADER"))
      ensures o.Fail? ==> header == old(header)
      ensures o.Pass? <==> id.None? || (id.value.tableId == pid.tableId && id.value.category == HEADER)
      ensures o.Pass? && id.Some? ==> header == id.value.pageNumber
      ensures o.Pass? && id.Some? && id.value.pageNumber != 0 ==> GetHeaderId() == id
    {
      if id.None? {
        header := 0;
      } else {
        if id.value.tableId != pid.tableId {
          return Fail(DbException("table id mismatch in setHeaderId"));
        }
        if id.value.category != HEADER {
          return Fail(DbException("header must be of type BTreePageId.HEADER"));
        }
        header := id.value.pageNumber;
      }
      return Pass;
    }
  }

  /**
   * `new BTreeRootPtrPage(id, data)` with its failure: an image shorter than nine bytes makes
   * the constructor throw, modelled as `None`.
   */
  method Parse(id: BTreePageId, data: seq<byte>) returns (r: Option<RootPtrPage>)
    ensures r.None? <==> |data| < PAGE_SIZE
    ensures r.Some? ==> fresh(r.value) && r.value.Valid() && r.value.pid == id
                        && Some(r.value.State()) == Decode(data)
                        && r.value.GetBeforeImage() == r.value.State()
  {
    if |data| < PAGE_SIZE {
      return None;
    }
    var p := new RootPtrPage(id, data);
    return Some(p);
  }

  /** A page parsed from the empty image points at no root and no header page. */
  lemma EmptyPageIds(p: RootPtrPage)
    requires p.State() == Decode(EmptyPageData()).value
    ensures p.GetRootId().None? && p.GetHeaderId().None?
  {
    EmptyPageHasNoPointers();
  }
}
