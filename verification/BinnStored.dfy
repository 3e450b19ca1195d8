/** What AddValue of binn (third-parties/binn/src/binn.c) stores for a type, some memory and a size, and what is
    read back of it. */
module BinnStored {
  import opened Bytes
  import opened BinnFormat
  import opened BinnInts

  // ----- What AddValue stores -----

  function Reversed(b: bytes): (r: bytes)
    ensures |r| == |b| && forall i :: 0 <= i < |b| ==> r[i] == b[|b| - 1 - i]
  {
    seq(|b|, i requires 0 <= i < |b| => b[|b| - 1 - i])
  }

  /** An integer as the little-endian host holds it. */
  function HostInt(tag: int, n: int): bytes
    requires IsInt(tag) && Fits(tag, n)
  {
    Reversed(ToBytes(tag, n))
  }

  function IntAt(tag: int, mem: bytes): int
    requires IsInt(tag) && |mem| >= IntWidth(tag)
  {
    FromBytes(tag, Reversed(mem[..IntWidth(tag)]))
  }

  /** The memory a caller must provide for a value: as much as its type or the size asks for. */
  ghost predicate MemoryOk(tag: int, mem: Option<bytes>, size: int)
  {
    && TypeOk(tag) && size < TWO31
    && (mem.Some? ==>
          && |mem.value| < TWO31
          && Width(Storage(tag)) <= |mem.value| && size <= |mem.value|
          && (Storage(tag) == CONTAINER && size > 0 ==> IsSaved(tag, mem.value[..size])))
  }

  function StoredTag(tag: int, mem: Option<bytes>, compress: bool): int
  {
    if compress && IsInt(tag) && mem.Some? && |mem.value| >= IntWidth(tag) then Compressed(tag, IntAt(tag, mem.value))
    else tag
  }

  /** The item that AddValue stores for the type, memory and size that it is given; None where it refuses. */
  function Stored(tag: int, mem: Option<bytes>, size: int, compress: bool): Option<Item>
  {
    var s := Storage(tag);
    if !TypeOk(tag) then None
    else if mem.None? then
      if s == NOBYTES || ((s == BLOB || s == STRING) && size == 0) then Some(Item(tag, [])) else None
    else if s == BLOB then
      if size < 0 then None else Some(Item(tag, mem.value[..Min(size, |mem.value|)]))
    else if s == STRING then
      if size < 0 then None
      else Some(Item(tag, if size == 0 then CStr(mem.value) else mem.value[..Min(size, |mem.value|)]))
    else if s == CONTAINER then
      if size <= 0 then None else Some(Item(tag, mem.value[..Min(size, |mem.value|)]))
    else
      var t := StoredTag(tag, mem, compress);
      var w := ScalarWidth(t);
      Some(Item(t, Reversed(mem.value[..Min(w, |mem.value|)])))
  }

  function ScalarWidth(tag: int): nat { Max(0, Width(Storage(tag))) }

  /** The room that AddValue asks for. */
  function Needed(it: Item): nat
  {
    var s := Storage(it.tag);
    |it.data| + 2 + (if s == BLOB then 4 else if s == STRING then 5 else 0)
  }

  lemma ReversedTwice(b: bytes)
    ensures Reversed(Reversed(b)) == b
  {
  }

  lemma ReversedPart(b: bytes, w: nat)
    requires w <= |b|
    ensures Reversed(b[..w]) == LowBytes(Reversed(b), w)
  {
  }

  /** An integer of the host is stored as IntItem says. */
  lemma StoredInt(tag: int, n: int, size: int, compress: bool)
    requires IsInt(tag) && Fits(tag, n)
    ensures TypeOk(tag) && Stored(tag, Some(HostInt(tag, n)), size, compress) == Some(IntItem(tag, n, compress))
  {
    hide ToBytes, FromBytes, Compressed, TypeOk, Storage, Width;
    var mem := HostInt(tag, n);
    IntStorage(tag);
    FromToBytes(tag, n);
    ReversedTwice(ToBytes(tag, n));
    assert mem[..IntWidth(tag)] == mem;
    CompressedIs(tag, n);
    CompressedNarrower(tag, n);
    var t := if compress then Compressed(tag, n) else tag;
    IntStorage(t);
    ReversedPart(mem, IntWidth(t));
  }

  lemma MemoryType(tag: int, mem: Option<bytes>, size: int)
    requires MemoryOk(tag, mem, size)
    ensures TypeOk(tag)
  {
  }

  lemma StoredScalar(tag: int, mem: Option<bytes>, size: int, compress: bool)
    requires MemoryOk(tag, mem, size) && mem.Some? && Width(Storage(tag)) >= 0
    ensures var t := StoredTag(tag, mem, compress);
            TypeOk(t) && 0 <= Width(Storage(t)) <= Width(Storage(tag))
  {
    hide ToBytes, FromBytes, Compressed, TypeOk, Storage, Width;
    if IsInt(tag) {
      IntStorage(tag);
      if StoredTag(tag, mem, compress) != tag {
        var n := IntAt(tag, mem.value);
        FromBytesFits(tag, Reversed(mem.value[..IntWidth(tag)]));
        NarrowerIs(tag, n);
        IntStorage(Compressed(tag, n));
      }
    }
  }

  lemma NarrowerIs(tag: int, n: int)
    requires IsInt(tag)
    ensures IsInt(Compressed(tag, n))
    ensures Fits(tag, n) ==> IntWidth(Compressed(tag, n)) <= IntWidth(tag)
  {
  }

  /** What is stored is well formed. */
  lemma StoredOk(tag: int, mem: Option<bytes>, size: int, compress: bool)
    requires MemoryOk(tag, mem, size) && Stored(tag, mem, size, compress).Some?
    ensures ItemOk(Stored(tag, mem, size, compress).value)
  {
    hide StoredTag, IsSaved;
    StorageKinds(tag);
    if mem.Some? && Width(Storage(tag)) >= 0 {
      StoredScalar(tag, mem, size, compress);
    }
  }

  /** AddValue asks for at least what it uses: for two bytes of type and four of a length, and more only where these
      are shorter or not there. */
  lemma NeededIs(it: Item)
    requires ItemOk(it)
    ensures var spare := if Storage(it.tag) == CONTAINER then 2 else if it.tag > 0xFF then 0 else 1;
            Needed(it) == |Encode(it)| + spare + (if Storage(it.tag) == STRING && |it.data| <= 127 then 3 else 0)
  {
    hide LenBytes, TypeBytes;
    EncodeIs(it);
    StorageKinds(it.tag);
    TypeBytesLength(it.tag);
  }

  lemma TypeBytesLength(tag: int)
    requires TypeOk(tag)
    ensures |TypeBytes(tag)| == if tag > 0xFF then 2 else 1
  {
  }

  // ----- What comes back -----

  /** What a caller hands to binn_list_add. */
  datatype Addition = Addition(tag: int, mem: Option<bytes>, size: int)

  /** The kind of a type, its highest three bits: no bytes, 1, 2, 4 or 8 bytes, string, blob, container. */
  function Kind(tag: int): int { (if tag > 0xFF then tag / 0x100 else tag) / 0x20 }

  function KindWidth(kind: int): nat
  {
    match kind case 1 => 1 case 2 => 2 case 3 => 4 case 4 => 8 case _ => 0
  }

  /** The number in the memory of a little-endian host. */
  function Sum(b: bytes): nat { if b == [] then 0 else b[0] + 0x100 * Sum(b[1..]) }

  /** n is the integer of this type in memory, negative ones in two's complement. */
  ghost predicate InMemory(tag: int, n: int, mem: bytes)
    requires IsInt(tag)
  {
    && IntWidth(tag) <= |mem| && Fits(tag, n)
    && Sum(mem[..IntWidth(tag)]) == if n < 0 then n + Range(IntWidth(tag)) else n
  }

  /** It is read back as any type that can hold it, and as no other. */
  ghost predicate ReadsAs(v: Value, n: int)
  {
    forall dest :: IsInt(dest) ==> ReadInt(v, dest) == if Fits(dest, n) then Some(n) else None
  }

  ghost predicate Narrowest(tag: int, n: int)
  {
    IsInt(tag) && Fits(tag, n) && forall t :: IsInt(t) && Fits(t, n) ==> IntWidth(tag) <= IntWidth(t)
  }

  ghost predicate IntComes(tag: int, mem: bytes, compress: bool, v: Value)
    requires IsInt(tag)
  {
    exists n :: InMemory(tag, n, mem) && ReadsAs(v, n) && (compress && IntWidth(tag) > 1 ==> Narrowest(v.tag, n))
  }

  /** The bytes in memory, the last first. */
  ghost predicate ScalarComes(tag: int, mem: bytes, v: Value)
  {
    var w := KindWidth(Kind(tag));
    && v.tag == tag && v.count == v.size == 0 && |v.data| == w <= |mem|
    && forall i :: 0 <= i < w ==> v.data[i] == mem[w - 1 - i]
  }

  /** A string without a size ends at its first zero byte. */
  ghost predicate TextComes(mem: bytes, size: int, data: bytes)
  {
    if size > 0 then size <= |mem| && data == mem[..size]
    else data <= mem && 0 !in data && (|data| < |mem| ==> mem[|data|] == 0)
  }

  ghost predicate BytesCome(tag: int, mem: Option<bytes>, size: int, v: Value)
  {
    && v.tag == tag && v.size == |v.data|
    && match mem
       case None => v.data == [] && v.count == 0
       case Some(m) =>
         if Kind(tag) == 5 then v.count == 0 && TextComes(m, size, v.data)
         else if Kind(tag) == 6 then v.count == 0 && 0 <= size <= |m| && v.data == m[..size]
         else 0 < size <= |m| && v.data == m[..size] && v.count >= 0
              && exists payload :: IsSavedAs(tag, v.data, v.count, payload)
  }

  /** v is what was added. */
  ghost predicate Comes(a: Addition, compress: bool, v: Value)
  {
    if Kind(a.tag) >= 5 then BytesCome(a.tag, a.mem, a.size, v)
    else if Kind(a.tag) == 0 then
      v == if a.tag == TRUE then Value(BOOL, 0, 0, [1])
           else if a.tag == FALSE then Value(BOOL, 0, 0, [0]) else Value(a.tag, 0, 0, [])
    else
      && a.mem.Some?
      && (IsInt(a.tag) ==> IntComes(a.tag, a.mem.value, compress, v))
      && (!(IsInt(a.tag) && compress) ==> ScalarComes(a.tag, a.mem.value, v))
  }

  /** AddValue refuses bytes that are missing, and sizes that make no sense. */
  ghost predicate Refuses(a: Addition)
  {
    if a.mem.None? then Kind(a.tag) != 0 && !(Kind(a.tag) in {5, 6} && a.size == 0)
    else (Kind(a.tag) in {5, 6} && a.size < 0) || (Kind(a.tag) == 7 && a.size <= 0)
  }

  lemma KindIs(tag: int)
    requires TypeOk(tag)
    ensures 0 <= Kind(tag) <= 7 && Storage(tag) == 0x20 * Kind(tag)
    ensures Kind(tag) < 5 ==> Width(Storage(tag)) == KindWidth(Kind(tag))
    ensures Kind(tag) >= 5 ==> Width(Storage(tag)) == -1
    ensures Kind(tag) != 0 ==> tag != TRUE && tag != FALSE
    ensures IsInt(tag) ==> 1 <= Kind(tag) <= 4 && IntWidth(tag) == KindWidth(Kind(tag))
  {
  }

  lemma RefusesIs(a: Addition, compress: bool)
    requires MemoryOk(a.tag, a.mem, a.size)
    ensures Stored(a.tag, a.mem, a.size, compress).None? <==> Refuses(a)
  {
    hide Kind, Storage, TypeOk, StoredTag;
    MemoryType(a.tag, a.mem, a.size);
    KindIs(a.tag);
  }

  lemma SumFour(b: bytes)
    requires |b| >= 4
    ensures Sum(b) == ReadBE32([b[3], b[2], b[1], b[0]]) + TWO32 * Sum(b[4..])
  {
    assert b[1..][1..] == b[2..] && b[2..][1..] == b[3..] && b[3..][1..] == b[4..];
    assert Sum(b) == b[0] + 0x100 * Sum(b[1..]);
    assert Sum(b[1..]) == b[1] + 0x100 * Sum(b[2..]);
    assert Sum(b[2..]) == b[2] + 0x100 * Sum(b[3..]);
    assert Sum(b[3..]) == b[3] + 0x100 * Sum(b[4..]);
  }

  lemma SumTwo(b: bytes)
    requires |b| in {1, 2}
    ensures Sum(b) == ReadU(Reversed(b))
  {
    hide ReadBE32;
    var r := Reversed(b);
    assert Sum(b) == b[0] + 0x100 * Sum(b[1..]);
    assert |b| == 2 ==> Sum(b[1..]) == b[1] + 0x100 * Sum(b[1..][1..]);
  }

  lemma SumEight(b: bytes)
    requires |b| == 8
    ensures Sum(b) == ReadU(Reversed(b))
  {
    hide Sum, ReadBE32;
    var r, rest := Reversed(b), b[4..];
    SumFour(b);
    SumFour(rest);
    assert Sum([]) == 0 by { SumNothing(); }
    assert rest[4..] == [];
    assert r[..4] == [b[7], b[6], b[5], b[4]];
    assert r[4..] == [b[3], b[2], b[1], b[0]];
    assert rest[3] == b[7] && rest[2] == b[6] && rest[1] == b[5] && rest[0] == b[4];
  }

  lemma SumJustFour(b: bytes)
    requires |b| == 4
    ensures Sum(b) == ReadU(Reversed(b))
  {
    hide Sum, ReadBE32;
    SumFour(b);
    SumNothing();
    assert b[4..] == [];
    assert Reversed(b) == [b[3], b[2], b[1], b[0]];
  }

  lemma SumNothing()
    ensures Sum([]) == 0
  {
  }

  /** A number read big-endian is the one that its reverse holds in memory. */
  lemma SumIs(b: bytes)
    requires |b| in {1, 2, 4, 8}
    ensures Sum(b) == ReadU(Reversed(b))
  {
    hide Sum, ReadU, Reversed;
    if |b| <= 2 {
      SumTwo(b);
    } else if |b| == 4 {
      SumJustFour(b);
    } else {
      SumEight(b);
    }
  }

  lemma InMemoryIs(tag: int, mem: bytes)
    requires IsInt(tag) && IntWidth(tag) <= |mem|
    ensures InMemory(tag, IntAt(tag, mem), mem)
  {
    hide ReadU, Sum;
    var low := mem[..IntWidth(tag)];
    SumIs(low);
    FromBytesFits(tag, Reversed(low));
  }

  lemma WriteReadBE32(b: bytes)
    requires |b| == 4
    ensures WriteBE32(ReadBE32(b)) == b
  {
    var n := ReadBE32(b);
    var hi, lo := (b[0] as int) * 0x100 + b[1], (b[2] as int) * 0x100 + b[3];
    assert n == hi * TWO16 + lo;
    assert n / TWO16 == hi && n % TWO16 == lo;
    assert WriteBE16(hi) == [b[0], b[1]] && WriteBE16(lo) == [b[2], b[3]];
  }

  lemma WriteReadU(b: bytes)
    requires |b| in {1, 2, 4, 8}
    ensures WriteU(ReadU(b), |b|) == b
  {
    hide WriteBE32, ReadBE32;
    if |b| == 4 {
      WriteReadBE32(b);
    } else if |b| == 8 {
      WriteReadBE32(b[..4]);
      WriteReadBE32(b[4..]);
      assert b == b[..4] + b[4..];
    }
  }

  /** The memory of a host holds some integer. */
  lemma InHost(tag: int, mem: bytes)
    requires IsInt(tag) && IntWidth(tag) <= |mem|
    ensures var n := IntAt(tag, mem); Fits(tag, n) && mem[..IntWidth(tag)] == HostInt(tag, n)
  {
    hide ReadU, WriteU;
    var low := mem[..IntWidth(tag)];
    FromBytesFits(tag, Reversed(low));
    WriteReadU(Reversed(low));
    ReversedTwice(low);
  }

  lemma OnlyItsBytes(tag: int, mem: bytes, size: int, compress: bool)
    requires MemoryOk(tag, Some(mem), size) && IsInt(tag)
    ensures IntWidth(tag) <= |mem|
    ensures Stored(tag, Some(mem), size, compress) == Stored(tag, Some(mem[..IntWidth(tag)]), size, compress)
  {
    hide FromBytes, Compressed, Storage, TypeOk, Width;
    IntStorage(tag);
    var low := mem[..IntWidth(tag)];
    assert low[..IntWidth(tag)] == low;
    StoredScalar(tag, Some(mem), size, compress);
    var w := ScalarWidth(StoredTag(tag, Some(mem), compress));
    assert mem[..w] == low[..w];
  }

  lemma IntStored(tag: int, mem: bytes, size: int, compress: bool)
    requires MemoryOk(tag, Some(mem), size) && IsInt(tag)
    ensures var it := Stored(tag, Some(mem), size, compress);
            it.Some? && ItemOk(it.value) && IntComes(tag, mem, compress, View(it.value))
  {
    hide Stored, FromBytes, ToBytes, Compressed, Storage, TypeOk, Width, Reversed, IntItem, HostInt, IntAt, View,
        ReadInt;
    OnlyItsBytes(tag, mem, size, compress);
    InHost(tag, mem);
    InMemoryIs(tag, mem);
    var n := IntAt(tag, mem);
    StoredInt(tag, n, size, compress);
    StoredOk(tag, Some(mem), size, compress);
    forall dest | IsInt(dest)
      ensures ReadInt(View(IntItem(tag, n, compress)), dest) == if Fits(dest, n) then Some(n) else None
    {
      IntRoundTrip(tag, n, compress, dest);
    }
    if compress {
      CompressedIs(tag, n);
      ItemNarrowest(tag, n);
    }
  }

  lemma ItemNarrowest(tag: int, n: int)
    requires IsInt(tag) && Fits(tag, n)
    ensures ItemOk(IntItem(tag, n, true)) ==> Narrowest(View(IntItem(tag, n, true)).tag, n)
  {
    hide ToBytes, LowBytes;
    CompressedIs(tag, n);
    IntStorage(Compressed(tag, n));
  }

  lemma ScalarStored(tag: int, mem: bytes, size: int, compress: bool)
    requires MemoryOk(tag, Some(mem), size) && 1 <= Kind(tag) <= 4 && !(IsInt(tag) && compress)
    ensures var it := Stored(tag, Some(mem), size, compress);
            it.Some? && ItemOk(it.value) && ScalarComes(tag, mem, View(it.value))
  {
    hide Kind, Storage, TypeOk;
    MemoryType(tag, Some(mem), size);
    KindIs(tag);
    StoredOk(tag, Some(mem), size, compress);
  }

  lemma ContainerCounts(it: Item)
    requires ItemOk(it) && Storage(it.tag) == CONTAINER
    ensures View(it).count >= 0 && exists payload :: IsSavedAs(it.tag, it.data, View(it).count, payload)
  {
    hide HeaderAt, LenAt, HeaderBytes, Saved;
    var count: nat, payload :| IsSavedAs(it.tag, it.data, count, payload);
    SavedHeader(it.data, 0, it.tag, it.data, count, payload);
    assert View(it).count == count;
  }

  lemma BytesStored(a: Addition, compress: bool)
    requires MemoryOk(a.tag, a.mem, a.size) && Stored(a.tag, a.mem, a.size, compress).Some? && Kind(a.tag) >= 5
    ensures var it := Stored(a.tag, a.mem, a.size, compress).value;
            ItemOk(it) && BytesCome(a.tag, a.mem, a.size, View(it))
  {
    hide Kind, Storage, TypeOk, HeaderAt, IsSavedAs;
    MemoryType(a.tag, a.mem, a.size);
    KindIs(a.tag);
    StoredOk(a.tag, a.mem, a.size, compress);
    var it := Stored(a.tag, a.mem, a.size, compress).value;
    if Kind(a.tag) == 7 {
      ContainerCounts(it);
    }
  }

  /** What is stored is read back as what was added. */
  lemma StoredComes(a: Addition, compress: bool)
    requires MemoryOk(a.tag, a.mem, a.size) && Stored(a.tag, a.mem, a.size, compress).Some?
    ensures var it := Stored(a.tag, a.mem, a.size, compress).value;
            ItemOk(it) && Comes(a, compress, View(it))
  {
    hide Kind, Storage, TypeOk, View, IntComes, ScalarComes, BytesCome, MemoryOk, Stored;
    MemoryType(a.tag, a.mem, a.size);
    KindIs(a.tag);
    RefusesIs(a, compress);
    if Kind(a.tag) >= 5 {
      BytesStored(a, compress);
    } else if Kind(a.tag) == 0 {
      NoBytesStored(a, compress);
    } else {
      if IsInt(a.tag) {
        IntStored(a.tag, a.mem.value, a.size, compress);
      }
      if !(IsInt(a.tag) && compress) {
        ScalarStored(a.tag, a.mem.value, a.size, compress);
      }
    }
  }

  lemma NoBytesStored(a: Addition, compress: bool)
    requires MemoryOk(a.tag, a.mem, a.size) && Stored(a.tag, a.mem, a.size, compress).Some? && Kind(a.tag) == 0
    ensures var it := Stored(a.tag, a.mem, a.size, compress).value;
            ItemOk(it) && Comes(a, compress, View(it))
  {
    hide Kind, Storage, TypeOk;
    MemoryType(a.tag, a.mem, a.size);
    KindIs(a.tag);
    StoredOk(a.tag, a.mem, a.size, compress);
  }
}
