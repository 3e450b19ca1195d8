/** The format of binn (third-parties/binn/src/binn.c): how an item is laid out, how AdvanceDataPos skips it
    and GetValue reads it, and how the header of a container is laid out and read.  Reads outside a buffer,
    which only malformed input causes, find 0 here. */
module BinnFormat {
  import opened Bytes

  const NOBYTES := 0x00
  const BYTE := 0x20
  const WORD := 0x40
  const DWORD := 0x60
  const QWORD := 0x80
  const STRING := 0xA0
  const BLOB := 0xC0
  const CONTAINER := 0xE0

  const LIST := 0xE0
  const MAP := 0xE1
  const OBJECT := 0xE2
  const TRUE := 0x01
  const FALSE := 0x02
  const BOOL := 0x80061

  const TWO31: int := 0x8000_0000
  const MIN_BINN_SIZE := 3
  const MAX_BINN_HEADER := 9

  function StorageOf(b: byte): int { b / 0x20 * 0x20 }

  predicate HasMore(b: byte) { b / 0x10 % 2 == 1 }

  predicate IsContainerType(tag: int) { LIST <= tag <= OBJECT }

  // ----- Reading a buffer -----

  function ByteAt(buf: bytes, p: int): byte { if 0 <= p < |buf| then buf[p] else 0 }

  function U32At(buf: bytes, p: int): (n: nat)
    ensures n < TWO32
  {
    ReadBE32([ByteAt(buf, p), ByteAt(buf, p + 1), ByteAt(buf, p + 2), ByteAt(buf, p + 3)])
  }

  function Signed32(n: int): int { if n >= TWO31 then n - TWO32 else n }

  function Slice(buf: bytes, p: int, n: int): bytes
  {
    if 0 <= p && 0 <= n && p + n <= |buf| then buf[p..p + n] else []
  }

  /** A buffer holds these bytes at p. */
  predicate Holds(buf: bytes, p: int, b: bytes)
  {
    0 <= p && p + |b| <= |buf| && buf[p..p + |b|] == b
  }

  lemma HoldsJoin(buf: bytes, p: int, a: bytes, b: bytes)
    requires Holds(buf, p, a + b)
    ensures Holds(buf, p, a) && Holds(buf, p + |a|, b)
  {
    assert buf[p..p + |a|] == (a + b)[..|a|];
    assert buf[p + |a|..p + |a| + |b|] == (a + b)[|a|..];
  }

  lemma HoldsByte(buf: bytes, p: int, b: bytes, i: nat)
    requires Holds(buf, p, b) && i < |b|
    ensures ByteAt(buf, p + i) == b[i]
  {
    assert buf[p..p + |b|][i] == buf[p + i];
  }

  lemma HoldsU32(buf: bytes, p: int, n: nat)
    requires n < TWO32 && Holds(buf, p, WriteBE32(n))
    ensures U32At(buf, p) == n
  {
    var b := WriteBE32(n);
    HoldsByte(buf, p, b, 0);
    HoldsByte(buf, p, b, 1);
    HoldsByte(buf, p, b, 2);
    HoldsByte(buf, p, b, 3);
    assert b == [b[0], b[1], b[2], b[3]];
  }

  lemma HoldsSlice(buf: bytes, p: int, b: bytes)
    requires Holds(buf, p, b)
    ensures Slice(buf, p, |b|) == b
  {
  }

  // ----- Lengths in one or four bytes -----

  function LenBytes(n: nat): (b: bytes)
    requires n < TWO31
    ensures |b| == LenWidth(n)
  {
    if n > 127 then WriteBE32(n + TWO31) else [n]
  }

  function LenWidth(n: nat): nat { if n > 127 then 4 else 1 }

  datatype Len = Len(n: int, width: int)

  /** A length at p; None if it does not end by plimit. */
  function LenAt(buf: bytes, p: int, plimit: int): Option<Len>
  {
    if p > plimit then None
    else if ByteAt(buf, p) < 0x80 then Some(Len(ByteAt(buf, p), 1))
    else if p + 3 > plimit then None
    else Some(Len(U32At(buf, p) % TWO31, 4))
  }

  lemma LenRead(buf: bytes, p: int, n: nat, plimit: int)
    requires n < TWO31 && Holds(buf, p, LenBytes(n)) && p + LenWidth(n) <= plimit + 1
    ensures LenAt(buf, p, plimit) == Some(Len(n, LenWidth(n)))
  {
    HoldsByte(buf, p, LenBytes(n), 0);
    if n > 127 {
      HoldsU32(buf, p, n + TWO31);
    }
  }

  // ----- Headers -----

  datatype Header = Header(tag: int, count: int, size: int, length: int)

  /** IsValidBinnHeader at p: given is *psize, with which the limit is known if it is positive. */
  function HeaderAt(buf: bytes, p: int, given: int): Option<Header>
  {
    var plimit := if given > 0 then p + given - 1 else Max(|buf|, p + 9);
    if !IsContainerType(ByteAt(buf, p)) then None
    else
      var size := LenAt(buf, p + 1, plimit);
      if size.None? then None
      else
        var count := LenAt(buf, p + 1 + size.value.width, plimit);
        if count.None? || size.value.n < MIN_BINN_SIZE then None
        else Some(Header(ByteAt(buf, p), count.value.n, size.value.n, 1 + size.value.width + count.value.width))
  }

  function HeaderBytes(tag: byte, count: nat, size: nat): (b: bytes)
    requires count < TWO31 && size < TWO31
    ensures |b| == 1 + LenWidth(size) + LenWidth(count)
  {
    [tag] + LenBytes(size) + LenBytes(count)
  }

  /** The size that binn_save_header gives a container. */
  function SavedSize(count: nat, payload: nat): nat
  {
    var size := payload + 3 + (if count > 127 then 3 else 0);
    if size > 127 then size + 3 else size
  }

  /** A container as it is saved. */
  function Saved(tag: byte, count: nat, payload: bytes): (b: bytes)
    requires count < TWO31 && SavedSize(count, |payload|) < TWO31
    ensures |b| == SavedSize(count, |payload|)
  {
    HeaderBytes(tag, count, SavedSize(count, |payload|)) + payload
  }

  lemma HeaderRead(buf: bytes, p: int, tag: byte, count: nat, size: nat, given: int)
    requires count < TWO31 && MIN_BINN_SIZE <= size < TWO31 && IsContainerType(tag)
    requires Holds(buf, p, HeaderBytes(tag, count, size))
    requires given > 0 ==> |HeaderBytes(tag, count, size)| <= given
    ensures HeaderAt(buf, p, given) == Some(Header(tag, count, size, |HeaderBytes(tag, count, size)|))
  {
    hide LenAt, Holds, LenBytes;
    var h := HeaderBytes(tag, count, size);
    var plimit := if given > 0 then p + given - 1 else Max(|buf|, p + 9);
    HoldsJoin(buf, p, [tag] + LenBytes(size), LenBytes(count));
    HoldsJoin(buf, p, [tag], LenBytes(size));
    HoldsByte(buf, p, [tag], 0);
    LenRead(buf, p + 1, size, plimit);
    LenRead(buf, p + 1 + LenWidth(size), count, plimit);
  }

  // ----- Items -----

  /** An item as it is stored; data is what follows its type, without lengths and terminators, and all of a
      container. */
  datatype Item = Item(tag: int, data: bytes)

  /** A type of one byte, or of two with the bit that says so. */
  predicate TypeOk(tag: int)
  {
    (0 <= tag <= 0xFF && !HasMore(tag)) || (0x100 <= tag <= 0xFFFF && HasMore(tag / 0x100))
  }

  function TypeBytes(tag: int): (b: bytes)
    requires TypeOk(tag)
  {
    if tag > 0xFF then [tag / 0x100, tag % 0x100] else [tag]
  }

  /** The storage of a type, -1 for what is not a type. */
  function Storage(tag: int): int
  {
    if TypeOk(tag) then StorageOf(TypeBytes(tag)[0]) else -1
  }

  /** The bytes of a scalar. */
  function Width(storage: int): int
  {
    if storage == NOBYTES then 0
    else if storage == BYTE then 1
    else if storage == WORD then 2
    else if storage == DWORD then 4
    else if storage == QWORD then 8
    else -1
  }

  /** A container that was saved: its header gives its type and its size. */
  ghost predicate IsSaved(tag: int, b: bytes)
  {
    exists count: nat, payload: bytes :: IsSavedAs(tag, b, count, payload)
  }

  ghost predicate IsSavedAs(tag: int, b: bytes, count: nat, payload: bytes)
  {
    IsContainerType(tag) && count < TWO31 && SavedSize(count, |payload|) < TWO31 && b == Saved(tag, count, payload)
  }

  ghost predicate ItemOk(it: Item)
  {
    && TypeOk(it.tag) && |it.data| < TWO31
    && (Width(Storage(it.tag)) >= 0 ==> |it.data| == Width(Storage(it.tag)))
    && (Storage(it.tag) == CONTAINER ==> IsSaved(it.tag, it.data))
  }

  ghost function Encode(it: Item): bytes
    requires ItemOk(it)
  {
    var s := Storage(it.tag);
    if s == CONTAINER then it.data
    else if s == STRING then TypeBytes(it.tag) + (LenBytes(|it.data|) + (it.data + [0]))
    else if s == BLOB then TypeBytes(it.tag) + (WriteBE32(|it.data|) + it.data)
    else TypeBytes(it.tag) + it.data
  }

  // ----- AdvanceDataPos -----

  function Bounded(p: int, plimit: int): Option<int> { if p > plimit then None else Some(p) }

  /** AdvanceDataPos after the type, which ended before q. */
  function AdvanceBody(buf: bytes, storage: int, q: int, plimit: int): Option<int>
  {
    if storage == BLOB then
      if q + 3 > plimit then None else Bounded(q + 4 + Signed32(U32At(buf, q)), plimit)
    else if storage == CONTAINER then
      var len := LenAt(buf, q, plimit);
      if len.None? then None else Bounded(q + len.value.n - 1, plimit)
    else if storage == STRING then
      var len := LenAt(buf, q, plimit);
      if len.None? then None else Bounded(q + len.value.width + len.value.n + 1, plimit)
    else
      Bounded(q + Width(storage), plimit)
  }

  function AdvanceDataPos(buf: bytes, p: int, plimit: int): Option<int>
  {
    if p > plimit then None
    else
      var b := ByteAt(buf, p);
      AdvanceBody(buf, StorageOf(b), if HasMore(b) then p + 2 else p + 1, plimit)
  }

  lemma TypeRead(buf: bytes, p: int, tag: int)
    requires TypeOk(tag) && Holds(buf, p, TypeBytes(tag))
    ensures StorageOf(ByteAt(buf, p)) == Storage(tag) && (HasMore(ByteAt(buf, p)) <==> tag > 0xFF)
    ensures |TypeBytes(tag)| == if tag > 0xFF then 2 else 1
    ensures tag == if tag > 0xFF then ByteAt(buf, p) * 0x100 + ByteAt(buf, p + 1) else ByteAt(buf, p)
  {
    HoldsByte(buf, p, TypeBytes(tag), 0);
    if tag > 0xFF {
      HoldsByte(buf, p, TypeBytes(tag), 1);
    }
  }

  lemma StorageKinds(tag: int)
    requires TypeOk(tag)
    ensures Width(Storage(tag)) >= 0 || Storage(tag) in {STRING, BLOB, CONTAINER}
    ensures Storage(tag) == CONTAINER && IsContainerType(tag) ==> tag <= 0xFF
  {
  }

  lemma SavedHeader(buf: bytes, p: int, tag: int, b: bytes, count: nat, payload: bytes)
    requires IsSavedAs(tag, b, count, payload) && Holds(buf, p, b)
    ensures Holds(buf, p, HeaderBytes(tag, count, |b|)) && 3 <= |HeaderBytes(tag, count, |b|)| <= |b|
    ensures HeaderAt(buf, p, 0) == Some(Header(tag, count, |b|, |HeaderBytes(tag, count, |b|)|))
    ensures Holds(buf, p, TypeBytes(tag)) && Storage(tag) == CONTAINER && Width(CONTAINER) < 0
    ensures Holds(buf, p + 1, LenBytes(|b|))
  {
    hide HeaderAt, Holds, LenBytes, WriteBE32;
    HoldsJoin(buf, p, HeaderBytes(tag, count, |b|), payload);
    HeaderRead(buf, p, tag, count, |b|, 0);
    HoldsJoin(buf, p, [tag as byte] + LenBytes(|b|), LenBytes(count));
    HoldsJoin(buf, p, [tag as byte], LenBytes(|b|));
  }

  lemma AdvanceContainer(buf: bytes, p: int, it: Item, plimit: int)
    requires ItemOk(it) && Storage(it.tag) == CONTAINER && Holds(buf, p, it.data) && p + |it.data| <= plimit + 1
    ensures AdvanceDataPos(buf, p, plimit) == Bounded(p + |it.data|, plimit)
  {
    hide HeaderAt, Holds, LenAt, HeaderBytes, Saved;
    var count, payload :| IsSavedAs(it.tag, it.data, count, payload);
    SavedHeader(buf, p, it.tag, it.data, count, payload);
    TypeRead(buf, p, it.tag);
    LenRead(buf, p + 1, |it.data|, plimit);
  }

  lemma EncodeIs(it: Item)
    requires ItemOk(it)
    ensures Storage(it.tag) == CONTAINER ==> Encode(it) == it.data
    ensures Storage(it.tag) == STRING ==> Encode(it) == TypeBytes(it.tag) + (LenBytes(|it.data|) + (it.data + [0]))
    ensures Storage(it.tag) == BLOB ==> Encode(it) == TypeBytes(it.tag) + (WriteBE32(|it.data|) + it.data)
    ensures Width(Storage(it.tag)) >= 0 ==> Encode(it) == TypeBytes(it.tag) + it.data
  {
  }

  lemma AdvanceString(buf: bytes, p: int, it: Item, plimit: int)
    requires ItemOk(it) && Storage(it.tag) == STRING && Holds(buf, p, Encode(it)) && p + |Encode(it)| <= plimit + 1
    ensures AdvanceDataPos(buf, p, plimit) == Bounded(p + |Encode(it)|, plimit)
  {
    hide Holds, LenAt, LenBytes, TypeBytes, Storage, StorageOf, Encode, Width;
    EncodeIs(it);
    var n := |it.data|;
    HoldsJoin(buf, p, TypeBytes(it.tag), LenBytes(n) + (it.data + [0]));
    HoldsJoin(buf, p + |TypeBytes(it.tag)|, LenBytes(n), it.data + [0]);
    TypeRead(buf, p, it.tag);
    LenRead(buf, p + |TypeBytes(it.tag)|, n, plimit);
  }

  lemma AdvanceBlob(buf: bytes, p: int, it: Item, plimit: int)
    requires ItemOk(it) && Storage(it.tag) == BLOB && Holds(buf, p, Encode(it)) && p + |Encode(it)| <= plimit + 1
    ensures AdvanceDataPos(buf, p, plimit) == Bounded(p + |Encode(it)|, plimit)
  {
    hide Holds, TypeBytes, WriteBE32, U32At, Storage, StorageOf, Encode, Width;
    EncodeIs(it);
    var n := |it.data|;
    HoldsJoin(buf, p, TypeBytes(it.tag), WriteBE32(n) + it.data);
    HoldsJoin(buf, p + |TypeBytes(it.tag)|, WriteBE32(n), it.data);
    TypeRead(buf, p, it.tag);
    HoldsU32(buf, p + |TypeBytes(it.tag)|, n);
  }

  /** An item is skipped as a whole; at the end of the data the result is 0 (None), as the code has it. */
  lemma AdvanceOver(buf: bytes, p: int, it: Item, plimit: int)
    requires ItemOk(it) && Holds(buf, p, Encode(it)) && p + |Encode(it)| <= plimit + 1
    ensures AdvanceDataPos(buf, p, plimit) == Bounded(p + |Encode(it)|, plimit)
  {
    hide Holds, TypeBytes, AdvanceDataPos;
    StorageKinds(it.tag);
    if Storage(it.tag) == CONTAINER {
      AdvanceContainer(buf, p, it, plimit);
    } else if Storage(it.tag) == STRING {
      AdvanceString(buf, p, it, plimit);
    } else if Storage(it.tag) == BLOB {
      AdvanceBlob(buf, p, it, plimit);
    } else {
      AdvanceScalar(buf, p, it, plimit);
    }
  }

  lemma AdvanceScalar(buf: bytes, p: int, it: Item, plimit: int)
    requires ItemOk(it) && Width(Storage(it.tag)) >= 0
    requires Holds(buf, p, Encode(it)) && p + |Encode(it)| <= plimit + 1
    ensures AdvanceDataPos(buf, p, plimit) == Bounded(p + |Encode(it)|, plimit)
  {
    hide Holds, TypeBytes;
    HoldsJoin(buf, p, TypeBytes(it.tag), it.data);
    TypeRead(buf, p, it.tag);
  }

  // ----- GetValue -----

  /** The value that is read: count and size are those of a container, size also that of a string or blob. */
  datatype Value = Value(tag: int, count: int, size: int, data: bytes)

  /** GetValue after the type, which ended before q. */
  function GetBody(buf: bytes, p: int, storage: int, tag: int, q: int): Option<Value>
  {
    if storage == BLOB then
      var size := Signed32(U32At(buf, q));
      Some(Value(tag, 0, size, Slice(buf, q + 4, size)))
    else if storage == CONTAINER then
      var h := HeaderAt(buf, p, 0);
      if h.None? then None else Some(Value(tag, h.value.count, h.value.size, Slice(buf, p, h.value.size)))
    else if storage == STRING then
      var len := LenAt(buf, q, q + 3);
      if len.None? then None
      else Some(Value(tag, 0, len.value.n, Slice(buf, q + len.value.width, len.value.n)))
    else if tag == TRUE || tag == FALSE then
      Some(Value(BOOL, 0, 0, [if tag == TRUE then 1 else 0]))
    else
      Some(Value(tag, 0, 0, Slice(buf, q, Width(storage))))
  }

  function GetValue(buf: bytes, p: int): Option<Value>
  {
    var b := ByteAt(buf, p);
    if HasMore(b) then GetBody(buf, p, StorageOf(b), b * 0x100 + ByteAt(buf, p + 1), p + 2)
    else GetBody(buf, p, StorageOf(b), b as int, p + 1)
  }

  /** What reading an item gives. */
  ghost function View(it: Item): Value
    requires ItemOk(it)
  {
    if Storage(it.tag) == CONTAINER then
      var h := HeaderAt(it.data, 0, 0);
      Value(it.tag, if h.Some? then h.value.count else 0, |it.data|, it.data)
    else if Storage(it.tag) in {STRING, BLOB} then Value(it.tag, 0, |it.data|, it.data)
    else if it.tag == TRUE || it.tag == FALSE then Value(BOOL, 0, 0, [if it.tag == TRUE then 1 else 0])
    else Value(it.tag, 0, 0, it.data)
  }

  lemma GetContainer(buf: bytes, p: int, it: Item)
    requires ItemOk(it) && Storage(it.tag) == CONTAINER && Holds(buf, p, it.data)
    ensures GetValue(buf, p) == Some(View(it))
  {
    hide HeaderAt, LenAt, HeaderBytes, Saved;
    var count, payload :| IsSavedAs(it.tag, it.data, count, payload);
    SavedHeader(buf, p, it.tag, it.data, count, payload);
    SavedHeader(it.data, 0, it.tag, it.data, count, payload);
    TypeRead(buf, p, it.tag);
  }

  lemma GetString(buf: bytes, p: int, it: Item)
    requires ItemOk(it) && Storage(it.tag) == STRING && Holds(buf, p, Encode(it))
    ensures GetValue(buf, p) == Some(View(it))
  {
    hide Holds, LenAt, LenBytes, TypeBytes, Slice, Storage, StorageOf, Encode, Width;
    EncodeIs(it);
    var n := |it.data|;
    var q := p + |TypeBytes(it.tag)|;
    HoldsJoin(buf, p, TypeBytes(it.tag), LenBytes(n) + (it.data + [0]));
    HoldsJoin(buf, q, LenBytes(n), it.data + [0]);
    HoldsJoin(buf, q + LenWidth(n), it.data, [0]);
    HoldsSlice(buf, q + LenWidth(n), it.data);
    TypeRead(buf, p, it.tag);
    LenRead(buf, q, n, q + 3);
  }

  lemma GetBlob(buf: bytes, p: int, it: Item)
    requires ItemOk(it) && Storage(it.tag) == BLOB && Holds(buf, p, Encode(it))
    ensures GetValue(buf, p) == Some(View(it))
  {
    hide Holds, TypeBytes, Slice, WriteBE32, U32At, Storage, StorageOf, Encode, Width;
    EncodeIs(it);
    var n := |it.data|;
    var q := p + |TypeBytes(it.tag)|;
    HoldsJoin(buf, p, TypeBytes(it.tag), WriteBE32(n) + it.data);
    HoldsJoin(buf, q, WriteBE32(n), it.data);
    HoldsSlice(buf, q + 4, it.data);
    TypeRead(buf, p, it.tag);
    HoldsU32(buf, q, n);
  }

  lemma GetScalar(buf: bytes, p: int, it: Item)
    requires ItemOk(it) && Width(Storage(it.tag)) >= 0 && Holds(buf, p, Encode(it))
    ensures GetValue(buf, p) == Some(View(it))
  {
    hide Holds, TypeBytes, Slice;
    HoldsJoin(buf, p, TypeBytes(it.tag), it.data);
    HoldsSlice(buf, p + |TypeBytes(it.tag)|, it.data);
    TypeRead(buf, p, it.tag);
  }

  /** Reading inverts writing, whatever surrounds the item. */
  lemma GetOver(buf: bytes, p: int, it: Item)
    requires ItemOk(it) && Holds(buf, p, Encode(it))
    ensures GetValue(buf, p) == Some(View(it))
  {
    hide Holds, TypeBytes, GetValue, View;
    StorageKinds(it.tag);
    if Storage(it.tag) == CONTAINER {
      GetContainer(buf, p, it);
    } else if Storage(it.tag) == STRING {
      GetString(buf, p, it);
    } else if Storage(it.tag) == BLOB {
      GetBlob(buf, p, it);
    } else {
      GetScalar(buf, p, it);
    }
  }
}
