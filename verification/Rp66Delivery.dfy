/** What on_iflr_data is given of a value: parse_value packs it into a value_t, and serialize_list_add takes it
    out again and puts it into the list of its channel (node-addon/src/common.cc).  On the way a text ends at its
    first zero byte, the type of a reference is overwritten, and an ORIGIN is read as a text. */
module Rp66Delivery {
  import opened Bytes
  import opened Rp66Values

  const ORIGIN: int := 22

  /** A code whose values serialize_list_add can take out.  It takes an ORIGIN for a text: the number is part of
      the address of its bytes, and their number was never set. */
  predicate Readable(repcode: int) { 0 <= repcode < REPCODE_MAX && repcode != ORIGIN }

  // ----- Delivery -----

  /** The origin and the copy number of an obname_t, as they lie in the memory of a little-endian host. */
  function NumbersInMemory(n: Obname): (b: bytes)
    ensures |b| == 8
  {
    [n.origin % 0x100, n.origin / 0x100 % 0x100, n.origin / 0x1_0000 % 0x100, n.origin / 0x100_0000 % 0x100,
     n.copy, 0, 0, 0]
  }

  /** pack_objref puts the text of the type where it then writes the name that is referred to.  What is read back
      as the type begins with the two numbers, and the zeros of the second end it. */
  function KindLeft(kind: bytes, target: Obname): bytes
  {
    CStr(NumbersInMemory(target)[..Min(|kind|, 8)])
  }

  /** serialize_list_add, on what parse_value leaves. */
  function Deliver(v: Value): Value
  {
    match v
    case Text(t) => Text(CStr(t))
    case Name(n) => Name(n.(name := CStr(n.name)))
    case Reference(kind, n) => Reference(KindLeft(kind, n), n.(name := CStr(n.name)))
    case _ => v
  }

  function DeliverAll(vs: seq<Value>): (r: seq<Value>)
    ensures |r| == |vs| && forall i :: 0 <= i < |vs| ==> r[i] == Deliver(vs[i])
  {
    seq(|vs|, i requires 0 <= i < |vs| => Deliver(vs[i]))
  }

  lemma DeliverAllJoin(a: seq<Value>, b: seq<Value>)
    ensures DeliverAll(a + b) == DeliverAll(a) + DeliverAll(b)
  {
    hide Deliver;
  }

  // ----- What comes through -----

  /** The type is empty, or just what the numbers of the target spell. */
  predicate KindStays(kind: bytes, target: Obname)
  {
    0 !in kind && kind <= NumbersInMemory(target)
  }

  predicate Plain(v: Value)
  {
    match v
    case Text(t) => 0 !in t
    case Name(n) => 0 !in n.name
    case Reference(kind, n) => 0 !in n.name && KindStays(kind, n)
    case _ => true
  }

  lemma KindLeftIs(kind: bytes, target: Obname)
    ensures KindLeft(kind, target) == kind <==> KindStays(kind, target)
  {
    var mem := NumbersInMemory(target);
    CStrWhole(mem[..Min(|kind|, 8)]);
    hide NumbersInMemory;
    if KindStays(kind, target) {
      assert mem[..Min(|kind|, 8)] == kind;
    }
  }

  /** A value is delivered as it was decoded if and only if its texts hold no zero byte, and the type of a
      reference is empty or what the numbers of its target happen to spell. */
  lemma DeliveredIs(v: Value)
    ensures Deliver(v) == v <==> Plain(v)
  {
    hide KindLeft, KindStays;
    match v
    case Text(t) => CStrWhole(t);
    case Name(n) => CStrWhole(n.name);
    case Reference(kind, n) => CStrWhole(n.name); KindLeftIs(kind, n);
    case _ =>
  }

  /** s is the part of t in front of its first zero byte, or the first limit bytes of that. */
  ghost predicate Ends(s: bytes, t: bytes, limit: nat)
  {
    s <= t && 0 !in s && |s| <= limit && (|s| < |t| && |s| < limit ==> t[|s|] == 0)
  }

  /** w is what there is of v in the list of its channel. */
  ghost predicate ArrivesAs(v: Value, w: Value)
  {
    match v
    case Text(t) => w.Text? && Ends(w.text, t, 4080)
    case Name(n) => w.Name? && SameButEnds(n, w.name)
    case Reference(kind, n) => w.Reference? && SameButEnds(n, w.target) && Spelt(w.kind, n, |kind|)
    case _ => w == v
  }

  ghost predicate SameButEnds(n: Obname, m: Obname)
  {
    m.origin == n.origin && m.copy == n.copy && Ends(m.name, n.name, |n.name|)
  }

  /** At most limit bytes: those of the origin, the lowest first, and the copy number, up to the first zero. */
  ghost predicate Spelt(s: bytes, n: Obname, limit: nat)
  {
    exists a: byte, b: byte, c: byte, d: byte, e: nat {:trigger LowBytes(n.origin, a, b, c, d, e)} ::
      LowBytes(n.origin, a, b, c, d, e) && Ends(s, [a, b, c, d] + [n.copy, 0], limit)
  }

  ghost predicate LowBytes(n: nat, a: byte, b: byte, c: byte, d: byte, e: nat)
  {
    n == (a as int) + 0x100 * (b as int) + 0x1_0000 * (c as int) + 0x100_0000 * (d as int) + TWO32 * e
  }

  lemma InMemory(n: Obname)
    ensures var mem := NumbersInMemory(n);
            mem[4..] == [n.copy, 0, 0, 0] && LowBytes(n.origin, mem[0], mem[1], mem[2], mem[3], n.origin / TWO32)
  {
    var p, q, r := n.origin / 0x100, n.origin / 0x1_0000, n.origin / 0x100_0000;
    assert q == p / 0x100;
    assert r == q / 0x100;
    assert n.origin / TWO32 == r / 0x100;
  }

  lemma SpeltIs(kind: bytes, n: Obname)
    ensures Spelt(KindLeft(kind, n), n, |kind|)
  {
    hide NumbersInMemory;
    InMemory(n);
    var mem := NumbersInMemory(n);
    var s := KindLeft(kind, n);
    var cut := mem[..Min(|kind|, 8)];
    var a, b, c, d := mem[0], mem[1], mem[2], mem[3];
    assert mem == [a, b, c, d] + [n.copy, 0] + [0, 0];
    assert s <= cut;
    if |cut| > 5 {
      ZeroEnds(cut, 5);
    }
    assert Ends(s, [a, b, c, d] + [n.copy, 0], |kind|);
    assert LowBytes(n.origin, a, b, c, d, n.origin / TWO32);
  }

  /** A text ends at its first zero, a long one after 4080 bytes; of the type of a reference nothing is left, but
      what the numbers of the target spell comes in its place. */
  lemma ArrivesIs(v: Value)
    ensures ArrivesAs(v, Deliver(Packed(v)))
  {
    hide KindLeft, Spelt;
    match v
    case Text(t) => assert CStr(Clip(t)) <= Clip(t) <= t;
    case Reference(kind, n) => SpeltIs(kind, n);
    case _ =>
  }

  // ----- From the encoding to the delivery -----

  /** The values that a code can encode, for the codes that have a decoder. */
  ghost predicate Writable(repcode: int, v: Value)
  {
    match v
    case Signed(i) => (repcode == 12 && -0x80 <= i < 0x80) || (repcode == 13 && -0x8000 <= i < 0x8000)
                      || (repcode == 14 && -0x8000_0000 <= i < 0x8000_0000)
    case Unsigned(u) => (repcode in {15, 26} && u < 0x100) || (repcode == 16 && u < TWO16)
                        || (repcode == 17 && u < TWO32) || (repcode in {18, ORIGIN} && u < 0x4000_0000)
    case Float32(bits) => repcode == 2 && |bits| == 4
    case Float64(bits) => repcode == 7 && |bits| == 8
    case Text(t) => (repcode in {19, 27} && |t| < 0x100) || (repcode == 20 && |t| < 0x4000_0000)
    case Name(n) => repcode == 23 && ObnameFits(n)
    case Reference(kind, n) => repcode == 24 && |kind| < 0x100 && ObnameFits(n)
    case Time(stamp) => repcode == 21 && |stamp| == 8
    case Untouched => false
  }

  function EncodeSigned(repcode: int, i: int): bytes
    requires Writable(repcode, Signed(i))
  {
    if repcode == 12 then [if i < 0 then i + 0x100 else i]
    else if repcode == 13 then WriteBE16(if i < 0 then i + TWO16 else i)
    else WriteBE32(if i < 0 then i + TWO32 else i)
  }

  function EncodeUnsigned(repcode: int, u: nat): bytes
    requires Writable(repcode, Unsigned(u))
  {
    if repcode in {15, 26} then [u]
    else if repcode == 16 then WriteBE16(u)
    else if repcode == 17 then WriteBE32(u)
    else EncodeUvari(u)
  }

  /** Appendix B of API RP66 V1. */
  function EncodeValue(repcode: int, v: Value): bytes
    requires Writable(repcode, v)
  {
    match v
    case Signed(i) => EncodeSigned(repcode, i)
    case Unsigned(u) => EncodeUnsigned(repcode, u)
    case Float32(bits) => bits
    case Float64(bits) => bits
    case Text(t) => if repcode == 20 then EncodeAscii(t) else EncodeIdent(t)
    case Name(n) => EncodeObname(n)
    case Reference(kind, n) => EncodeObjref(kind, n)
    case Time(stamp) => stamp
    case Untouched => []
  }

  /** What fits into a value_t. */
  function Packed(v: Value): Value
  {
    match v
    case Text(t) => Text(Clip(t))
    case _ => v
  }

  lemma SignedRoundTrip(repcode: int, i: int, tail: bytes)
    requires Writable(repcode, Signed(i))
    ensures 12 <= repcode <= 14
    ensures var e := EncodeSigned(repcode, i); DecodeValue(repcode, e + tail) == Got(Signed(i), |e|)
  {
    var e := EncodeSigned(repcode, i);
    if repcode == 13 {
      ReadBE16Local(e, tail);
    } else if repcode == 14 {
      ReadBE32Local(e, tail);
    }
  }

  lemma UnsignedRoundTrip(repcode: int, u: nat, tail: bytes)
    requires Writable(repcode, Unsigned(u))
    ensures 0 <= repcode < REPCODE_MAX
    ensures var e := EncodeUnsigned(repcode, u); DecodeValue(repcode, e + tail) == Got(Unsigned(u), |e|)
  {
    hide DecodeUvari, EncodeUvari;
    var e := EncodeUnsigned(repcode, u);
    if repcode == 16 {
      ReadBE16Local(e, tail);
    } else if repcode == 17 {
      ReadBE32Local(e, tail);
    } else if repcode in {18, ORIGIN} {
      UvariRoundTrip(u, tail);
      assert e + tail != [];
    }
  }

  /** For every code that has a decoder, and whatever follows. */
  lemma ValueRoundTrip(repcode: int, v: Value, tail: bytes)
    requires Writable(repcode, v)
    ensures 0 <= repcode < REPCODE_MAX
    ensures var e := EncodeValue(repcode, v); DecodeValue(repcode, e + tail) == Got(Packed(v), |e|)
  {
    hide DecodeIdent, DecodeAscii, DecodeObname, DecodeObjref, DecodeUvari, EncodeUvari, Clip;
    match v
    case Signed(i) => SignedRoundTrip(repcode, i, tail);
    case Unsigned(u) => UnsignedRoundTrip(repcode, u, tail);
    case Text(t) => TextRoundTrip(repcode, t, tail);
    case Name(n) =>
      ObnameRoundTrip(n, tail);
      assert EncodeObname(n) + tail != [];
    case Reference(kind, n) =>
      ObjrefRoundTrip(kind, n, tail);
      assert EncodeObjref(kind, n) + tail != [];
    case Float32(bits) => assert (bits + tail)[..4] == bits;
    case Float64(bits) => assert (bits + tail)[..8] == bits;
    case Time(stamp) => assert (stamp + tail)[..8] == stamp;
    case _ =>
  }

  lemma TextRoundTrip(repcode: int, t: bytes, tail: bytes)
    requires Writable(repcode, Text(t))
    ensures 0 <= repcode < REPCODE_MAX
    ensures var e := EncodeValue(repcode, Text(t)); DecodeValue(repcode, e + tail) == Got(Text(Clip(t)), |e|)
  {
    hide DecodeIdent, DecodeAscii, Clip;
    var e := EncodeValue(repcode, Text(t));
    assert e + tail != [];
    if repcode == 20 {
      AsciiRoundTrip(t, tail);
    } else {
      IdentRoundTrip(t, tail);
    }
  }

  /** The exact condition for a value to be delivered as it was encoded. */
  predicate ComesThrough(repcode: int, v: Value)
  {
    repcode != ORIGIN && Plain(v) && (v.Text? ==> |v.text| <= MAX_TEXT)
  }

  lemma ComesThroughIs(repcode: int, v: Value)
    requires Writable(repcode, v)
    ensures (Readable(repcode) && Deliver(Packed(v)) == v) <==> ComesThrough(repcode, v)
  {
    hide KindLeft, KindStays;
    DeliveredIs(v);
  }
}
