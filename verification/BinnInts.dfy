/** Integers in binn (third-parties/binn/src/binn.c): the narrower type that compress_int picks, and what
    copy_int_value gives when an integer is read as any of the eight types.  The host is little-endian. */
module BinnInts {
  import opened Bytes
  import opened BinnFormat

  const UINT8 := 0x20
  const INT8 := 0x21
  const UINT16 := 0x40
  const INT16 := 0x41
  const UINT32 := 0x60
  const INT32 := 0x61
  const UINT64 := 0x80
  const INT64 := 0x81

  const TWO63: int := 0x8000_0000_0000_0000

  predicate IsInt(tag: int)
  {
    tag == UINT8 || tag == INT8 || tag == UINT16 || tag == INT16
    || tag == UINT32 || tag == INT32 || tag == UINT64 || tag == INT64
  }

  predicate IsSigned(tag: int) { tag == INT8 || tag == INT16 || tag == INT32 || tag == INT64 }

  function IntWidth(tag: int): (w: nat)
    requires IsInt(tag)
  {
    if tag <= INT8 then 1 else if tag <= INT16 then 2 else if tag <= INT32 then 4 else 8
  }

  /** One more than the largest number of w bytes. */
  function Range(w: nat): (r: int)
    requires w in {1, 2, 4, 8}
    ensures r > 0 && r % 2 == 0
  {
    if w == 1 then 0x100 else if w == 2 then TWO16 else if w == 4 then TWO32 else TWO64
  }

  predicate Fits(tag: int, n: int)
    requires IsInt(tag)
  {
    var r := Range(IntWidth(tag));
    if IsSigned(tag) then -(r / 2) <= n < r / 2 else 0 <= n < r
  }

  // ----- The bytes of an integer, most significant first -----

  function WriteU(u: nat, w: nat): (b: bytes)
    requires w in {1, 2, 4, 8} && u < Range(w)
    ensures |b| == w
  {
    if w == 1 then [u]
    else if w == 2 then WriteBE16(u)
    else if w == 4 then WriteBE32(u)
    else WriteBE32(u / TWO32) + WriteBE32(u % TWO32)
  }

  function ReadU(b: bytes): (u: nat)
    requires |b| in {1, 2, 4, 8}
    ensures u < Range(|b|)
  {
    if |b| == 1 then b[0]
    else if |b| == 2 then ReadBE16(b)
    else if |b| == 4 then ReadBE32(b)
    else ReadBE32(b[..4]) * TWO32 + ReadBE32(b[4..])
  }

  lemma ReadWriteU(u: nat, w: nat)
    requires w in {1, 2, 4, 8} && u < Range(w)
    ensures ReadU(WriteU(u, w)) == u
  {
    if w == 8 {
      var hi, lo := WriteBE32(u / TWO32), WriteBE32(u % TWO32);
      assert (hi + lo)[..4] == hi && (hi + lo)[4..] == lo;
    }
  }

  /** The number that stands for n, two's complement. */
  function Unsigned(tag: int, n: int): (u: nat)
    requires IsInt(tag) && Fits(tag, n)
    ensures u < Range(IntWidth(tag))
  {
    if n < 0 then n + Range(IntWidth(tag)) else n
  }

  function ToBytes(tag: int, n: int): (b: bytes)
    requires IsInt(tag) && Fits(tag, n)
    ensures |b| == IntWidth(tag)
  {
    WriteU(Unsigned(tag, n), IntWidth(tag))
  }

  function FromBytes(tag: int, b: bytes): (n: int)
    requires IsInt(tag) && |b| == IntWidth(tag)
  {
    var r, u := Range(|b|), ReadU(b);
    if IsSigned(tag) && u >= r / 2 then u - r else u
  }

  lemma FromBytesFits(tag: int, b: bytes)
    requires IsInt(tag) && |b| == IntWidth(tag)
    ensures Fits(tag, FromBytes(tag, b))
  {
    hide ReadU;
  }

  lemma FromToBytes(tag: int, n: int)
    requires IsInt(tag) && Fits(tag, n)
    ensures FromBytes(tag, ToBytes(tag, n)) == n
  {
    hide ReadU, WriteU;
    ReadWriteU(Unsigned(tag, n), IntWidth(tag));
  }

  // ----- compress_int -----

  /** The type a value is stored with; 0 stands for none narrower. */
  function Narrower(n: int): int
  {
    if n < 0 then
      if n >= -0x80 then INT8 else if n >= -0x8000 then INT16 else if n >= -TWO31 then INT32 else 0
    else
      if n <= 0xFF then UINT8 else if n <= 0xFFFF then UINT16 else if n <= 0xFFFF_FFFF then UINT32 else 0
  }

  function Compressed(tag: int, n: int): int
    requires IsInt(tag)
  {
    if IntWidth(tag) == 1 then tag else if Narrower(n) == 0 then tag else Narrower(n)
  }

  /** The stored bytes: the lowest ones of the integer in memory, which has the type the caller gave. */
  function LowBytes(b: bytes, w: nat): bytes
    requires w <= |b|
  {
    b[|b| - w..]
  }

  /** The number that w bytes can hold of u. */
  function LowPart(u: nat, w: nat): (r: nat)
    requires w in {1, 2, 4, 8}
    ensures r < Range(w)
  {
    if w == 1 then u % 0x100 else if w == 2 then u % TWO16 else if w == 4 then u % TWO32 else u % TWO64
  }

  lemma Modulo8(u: nat, q: nat, r: nat)
    requires u == q * 0x100 + r && r < 0x100
    ensures u % 0x100 == r
  {
  }

  lemma Modulo16(u: nat, q: nat, r: nat)
    requires u == q * TWO16 + r && r < TWO16
    ensures u % TWO16 == r
  {
  }

  lemma Modulo32(u: nat, q: nat, r: nat)
    requires u == q * TWO32 + r && r < TWO32
    ensures u % TWO32 == r
  {
  }

  /** The complement of a negative number in a wide type, cut to a narrower one. */
  lemma LowPartNegative(n: int, w: nat, w2: nat)
    requires w in {1, 2, 4, 8} && w2 in {1, 2, 4, 8} && w2 <= w && -Range(w2) <= n < 0
    ensures 0 <= n + Range(w) && LowPart(n + Range(w), w2) == n + Range(w2)
  {
    hide LowPart;
    var u := n + Range(w);
    LowPartIs(u, w2);
    if w2 == w {
      LowPartSame(u, w);
    } else if w2 == 1 {
      Modulo8(u, if w == 2 then 0xFF else if w == 4 then 0xFF_FFFF else 0xFF_FFFF_FFFF_FFFF, n + 0x100);
    } else if w2 == 2 {
      Modulo16(u, if w == 4 then 0xFFFF else 0xFFFF_FFFF_FFFF, n + TWO16);
    } else {
      Modulo32(u, 0xFFFF_FFFF, n + TWO32);
    }
  }

  lemma LowPartIs(u: nat, w: nat)
    ensures w == 1 ==> LowPart(u, w) == u % 0x100
    ensures w == 2 ==> LowPart(u, w) == u % TWO16
    ensures w == 4 ==> LowPart(u, w) == u % TWO32
  {
  }

  /** A number that fits is left when its bytes, or those of its complement, are dropped. */
  lemma LowPartOf(tag: int, t: int, n: int)
    requires IsInt(tag) && IsInt(t) && Fits(tag, n) && Fits(t, n) && IntWidth(t) <= IntWidth(tag)
    ensures LowPart(Unsigned(tag, n), IntWidth(t)) == Unsigned(t, n)
  {
    hide LowPart;
    if n >= 0 {
      LowPartSame(n, IntWidth(t));
    } else {
      LowPartNegative(n, IntWidth(tag), IntWidth(t));
    }
  }

  lemma LowOf32(u: nat)
    requires u < TWO32
    ensures WriteBE32(u)[2..] == WriteBE16(u % TWO16)
    ensures WriteBE32(u)[3..] == [u % 0x100]
  {
    var q, r := u / TWO16, u % TWO16;
    assert u == q * TWO16 + r;
    var a, b := r / 0x100, r % 0x100;
    assert u == (q * 0x100 + a) * 0x100 + b;
    assert u / 0x100 == q * 0x100 + a && u % 0x100 == b;
    assert u / 0x100 % 0x100 == a;
  }

  lemma LowOf16(u: nat)
    requires u < TWO16
    ensures WriteBE16(u)[1..] == [u % 0x100]
  {
  }

  lemma Modulo32To16(u: nat)
    ensures u % TWO32 % TWO16 == u % TWO16
  {
    var q, r := u / TWO32, u % TWO32;
    var a, b := r / TWO16, r % TWO16;
    assert u == (q * TWO16 + a) * TWO16 + b;
  }

  lemma Modulo16To8(u: nat)
    ensures u % TWO16 % 0x100 == u % 0x100
  {
    var q, r := u / TWO16, u % TWO16;
    var a, b := r / 0x100, r % 0x100;
    assert u == (q * 0x100 + a) * 0x100 + b;
  }

  lemma LowPartTwice(u: nat, w: nat)
    requires w in {1, 2, 4}
    ensures LowPart(u % TWO32, w) == LowPart(u, w)
    ensures w <= 2 ==> LowPart(u % TWO16, w) == LowPart(u, w)
  {
    Modulo32To16(u);
    Modulo16To8(u);
    Modulo16To8(u % TWO32);
  }

  lemma LowOf64(u: nat, w: nat)
    requires u < TWO64 && w <= 4
    ensures WriteU(u, 8)[8 - w..] == WriteBE32(u % TWO32)[4 - w..]
  {
    hide WriteBE32;
  }

  /** Dropping high bytes takes the number modulo the new range. */
  lemma LowOfU(u: nat, w: nat, w2: nat)
    requires w in {1, 2, 4, 8} && w2 in {1, 2, 4, 8} && w2 <= w && u < Range(w)
    ensures LowBytes(WriteU(u, w), w2) == WriteU(LowPart(u, w2), w2)
  {
    hide WriteBE32, WriteBE16, WriteU, LowPart;
    LowPartSame(u, w);
    if w == w2 {
    } else if w == 8 {
      LowOf64(u, w2);
      LowFrom32(u % TWO32, w2);
      LowPartTwice(u, w2);
    } else if w == 4 {
      WriteUIs(u);
      LowFrom32(u, w2);
    } else {
      LowFrom16(u);
    }
  }

  lemma LowPartSame(u: nat, w: nat)
    requires w in {1, 2, 4, 8} && u < Range(w)
    ensures LowPart(u, w) == u
  {
  }

  lemma WriteUIs(u: nat)
    ensures u < 0x100 ==> WriteU(u, 1) == [u]
    ensures u < TWO16 ==> WriteU(u, 2) == WriteBE16(u)
    ensures u < TWO32 ==> WriteU(u, 4) == WriteBE32(u)
  {
    hide WriteBE32, WriteBE16;
  }

  lemma LowFrom16(u: nat)
    requires u < TWO16
    ensures LowBytes(WriteU(u, 2), 1) == WriteU(LowPart(u, 1), 1)
  {
    hide WriteBE32, WriteBE16, WriteU;
    LowOf16(u);
    WriteUIs(u);
    WriteUIs(u % 0x100);
  }

  lemma LowFrom32(u: nat, w: nat)
    requires u < TWO32 && w in {1, 2, 4}
    ensures WriteBE32(u)[4 - w..] == WriteU(LowPart(u, w), w)
  {
    hide WriteBE32, WriteBE16, WriteU;
    LowOf32(u);
    WriteUIs(u);
    WriteUIs(u % TWO16);
    WriteUIs(u % 0x100);
  }

  /** The narrower type holds the value, and no type that holds it is narrower. */
  lemma CompressedIs(tag: int, n: int)
    requires IsInt(tag) && Fits(tag, n)
    ensures IsInt(Compressed(tag, n)) && Fits(Compressed(tag, n), n)
    ensures forall t :: IsInt(t) && Fits(t, n) ==> IntWidth(Compressed(tag, n)) <= IntWidth(t)
  {
  }

  lemma CompressedNarrower(tag: int, n: int)
    requires IsInt(tag) && Fits(tag, n) && IsInt(Compressed(tag, n))
    ensures IntWidth(Compressed(tag, n)) <= IntWidth(tag)
  {
  }

  /** The bytes that are stored are those of the value in its narrower type. */
  lemma CompressedBytes(tag: int, n: int)
    requires IsInt(tag) && Fits(tag, n)
    ensures var t := Compressed(tag, n);
            IsInt(t) && Fits(t, n) && IntWidth(t) <= IntWidth(tag) &&
            LowBytes(ToBytes(tag, n), IntWidth(t)) == ToBytes(t, n)
  {
    hide WriteU, LowBytes, Compressed, LowPart, Unsigned;
    CompressedIs(tag, n);
    CompressedNarrower(tag, n);
    var t := Compressed(tag, n);
    LowPartOf(tag, t, n);
    LowOfU(Unsigned(tag, n), IntWidth(tag), IntWidth(t));
  }

  /** What is stored for an integer. */
  function IntItem(tag: int, n: int, compress: bool): (it: Item)
    requires IsInt(tag) && Fits(tag, n)
  {
    if compress then
      var t := Compressed(tag, n);
      Item(t, LowBytes(ToBytes(tag, n), Min(IntWidth(tag), IntWidth2(t))))
    else
      Item(tag, ToBytes(tag, n))
  }

  function IntWidth2(tag: int): nat { if IsInt(tag) then IntWidth(tag) else 0 }

  // ----- copy_int_value -----

  /** copy_value for an integer that is stored with the type source and wanted as dest. */
  function CopyInt(n: int, source: int, dest: int): Option<int>
    requires IsInt(source) && IsInt(dest)
  {
    if source == dest then Some(n)
    else if !IsSigned(source) && IsSigned(dest) && n > TWO63 - 1 then None
    else if IsSigned(source) && !IsSigned(dest) && n < 0 then None
    else if dest == INT8 then if n < -0x80 || n > 0x7F then None else Some(n)
    else if dest == INT16 then if n < -0x8000 || n > 0x7FFF then None else Some(n)
    else if dest == INT32 then if n < -TWO31 || n > TWO31 - 1 then None else Some(n)
    else if dest == INT64 then Some(n)
    else if dest == UINT8 then if n > 0xFF then None else Some(n)
    else if dest == UINT16 then if n > 0xFFFF then None else Some(n)
    else if dest == UINT32 then if n > 0xFFFF_FFFF then None else Some(n)
    else Some(n)
  }

  /** Reading a value as an integer of some type. */
  function ReadInt(v: Value, dest: int): Option<int>
    requires IsInt(dest)
  {
    if !IsInt(v.tag) || |v.data| != IntWidth(v.tag) then None else CopyInt(FromBytes(v.tag, v.data), v.tag, dest)
  }

  lemma IntStorage(tag: int)
    requires IsInt(tag)
    ensures TypeOk(tag) && Width(Storage(tag)) == IntWidth(tag) && tag != TRUE && tag != FALSE
    ensures Storage(tag) != CONTAINER && Storage(tag) != STRING && Storage(tag) != BLOB
  {
  }

  /** An integer stored with any type and read as any type comes back iff the wanted type can hold it. */
  lemma IntRoundTrip(tag: int, n: int, compress: bool, dest: int)
    requires IsInt(tag) && Fits(tag, n) && IsInt(dest)
    ensures ItemOk(IntItem(tag, n, compress))
    ensures ReadInt(View(IntItem(tag, n, compress)), dest) == if Fits(dest, n) then Some(n) else None
  {
    hide Compressed, ToBytes, FromBytes, LowBytes, Storage, TypeOk, Width;
    CompressedIs(tag, n);
    CompressedBytes(tag, n);
    var t := IntItem(tag, n, compress).tag;
    IntStorage(t);
    FromToBytes(t, n);
  }
}
