/** The value decoders of node-addon/src/common.cc: representation codes of Appendix B of API RP66 V1.
    Every C decoder returns a byte count, and every count that is not positive makes its caller stop;
    Fail stands for all of those. */
module Rp66Values {
  import opened Bytes

  datatype Decoded<+T> = Fail | Got(value: T, len: nat)

  datatype Obname = Obname(origin: nat, copy: byte, name: bytes)

  /** What a value_t holds after parse_value.  Floating-point values keep their bytes;
      Untouched is a value whose code has a known size but no decoder, so that the union is left as it was. */
  datatype Value =
    | Signed(i: int)
    | Unsigned(u: nat)
    | Float32(bits: bytes)
    | Float64(bits: bytes)
    | Text(text: bytes)
    | Name(name: Obname)
    | Reference(kind: bytes, target: Obname)
    | Time(stamp: bytes)
    | Untouched

  const REPCODE_MAX: int := 28
  const ATTREF: int := 25

  // pack_lstr keeps what fits behind a sized_str_t in MAX_VALUE_SIZE bytes
  const MAX_TEXT: int := 4096 - 16

  /** REPCODE_SIZES */
  function RepcodeSize(repcode: int): int
  {
    match repcode
    case 1 => 2
    case 2 => 4
    case 3 => 8
    case 4 => 12
    case 5 => 4
    case 6 => 4
    case 7 => 8
    case 8 => 16
    case 9 => 24
    case 10 => 8
    case 11 => 16
    case 12 => 1
    case 13 => 2
    case 14 => 4
    case 15 => 1
    case 16 => 2
    case 17 => 4
    case 21 => 8
    case 26 => 1
    case _ => if repcode == 0 then -1 else 0
  }

  function DecodeUvari(b: bytes): Decoded<nat>
  {
    if |b| == 0 then Fail
    else if b[0] < 0x80 then Got(b[0], 1)
    else if b[0] < 0xC0 then
      if |b| < 2 then Fail else Got(ReadBE16(b) - 0x8000, 2)
    else
      if |b| < 4 then Fail else Got(ReadBE32(b) - 0xC000_0000, 4)
  }

  function DecodeIdent(b: bytes): Decoded<bytes>
  {
    if |b| < 1 || |b| - 1 < b[0] then Fail
    else
      var n: nat := b[0];
      Got(b[1..1 + n], 1 + n)
  }

  function DecodeAscii(b: bytes): Decoded<bytes>
  {
    match DecodeUvari(b)
    case Fail => Fail
    case Got(n, k) => if |b| - k < n then Fail else Got(b[k..k + n], k + n)
  }

  function DecodeObname(b: bytes): Decoded<Obname>
  {
    match DecodeUvari(b)
    case Fail => Fail
    case Got(origin, k) =>
      if |b| < k + 1 then Fail
      else
        match DecodeIdent(b[k + 1..])
        case Fail => Fail
        case Got(name, m) => Got(Obname(origin, b[k], name), k + 1 + m)
  }

  function DecodeObjref(b: bytes): Decoded<(bytes, Obname)>
  {
    match DecodeIdent(b)
    case Fail => Fail
    case Got(kind, k) =>
      match DecodeObname(b[k..])
      case Fail => Fail
      case Got(target, m) => Got((kind, target), k + m)
  }

  function Clip(s: bytes): bytes
  {
    if |s| > MAX_TEXT then s[..MAX_TEXT] else s
  }

  /** The two's complement reading of n on a width whose values number modulus. */
  function AsSigned(n: nat, modulus: nat): int
  {
    if n < modulus / 2 then n else n - modulus
  }

  function DecodeText(d: Decoded<bytes>): Decoded<Value>
  {
    match d
    case Fail => Fail
    case Got(s, k) => Got(Text(Clip(s)), k)
  }

  /** parse_value, for a representation code it does not exit on. */
  function DecodeValue(repcode: int, b: bytes): (d: Decoded<Value>)
    requires 0 <= repcode < REPCODE_MAX
    ensures d.Got? ==> 1 <= d.len <= |b|
  {
    var size := RepcodeSize(repcode);
    if |b| == 0 || |b| < size then Fail
    else
      match repcode
      case 2 => Got(Float32(b[..4]), 4)
      case 7 => Got(Float64(b[..8]), 8)
      case 12 => Got(Signed(AsSigned(b[0], 0x100)), 1)
      case 13 => Got(Signed(AsSigned(ReadBE16(b), TWO16)), 2)
      case 14 => Got(Signed(AsSigned(ReadBE32(b), TWO32)), 4)
      case 15 => Got(Unsigned(b[0]), 1)
      case 16 => Got(Unsigned(ReadBE16(b)), 2)
      case 17 => Got(Unsigned(ReadBE32(b)), 4)
      case 18 => DecodeUnsigned(b)
      case 19 => DecodeText(DecodeIdent(b))
      case 20 => DecodeText(DecodeAscii(b))
      case 21 => Got(Time(b[..8]), 8)
      case 22 => DecodeUnsigned(b)
      case 23 => (match DecodeObname(b) case Fail => Fail case Got(n, k) => Got(Name(n), k))
      case 24 => (match DecodeObjref(b) case Fail => Fail case Got(r, k) => Got(Reference(r.0, r.1), k))
      case 26 => Got(Unsigned(b[0]), 1)
      case 27 => DecodeText(DecodeIdent(b))
      case _ => if size <= 0 then Fail else Got(Untouched, size)
  }

  /** The codes without a decoder: a value is as long as the numbers it is made of, a single one of 4 bytes or a
      double one of 8, and two or three of them; FSHORT has 2 bytes. */
  lemma Undecoded(repcode: int, b: bytes)
    requires repcode in {1, 3, 4, 5, 6, 8, 9, 10, 11}
    ensures var width := if repcode == 1 then 2 else if repcode in {3, 4, 5, 6, 10} then 4 else 8;
            var numbers := if repcode in {1, 5, 6} then 1 else if repcode in {4, 9} then 3 else 2;
            DecodeValue(repcode, b) == if |b| < numbers * width then Fail else Got(Untouched, numbers * width)
  {
  }

  /** i is the two's complement reading of a number of this many values. */
  ghost predicate Complement(i: int, n: nat, modulus: nat)
  {
    0 <= 2 * i + modulus < 2 * modulus && (i == n || i + modulus == n)
  }

  /** Integers are big-endian, and signed ones in two's complement. */
  lemma IntegersRead(b: bytes)
    requires |b| >= 4
    ensures var n1, n2: nat, n4: nat := b[0] as int, (b[0] as int) * 0x100 + b[1] as int,
                ((((b[0] as int) * 0x100 + b[1] as int) * 0x100) + b[2] as int) * 0x100 + b[3] as int;
            && DecodeValue(15, b) == DecodeValue(26, b) == Got(Unsigned(n1), 1)
            && DecodeValue(16, b) == Got(Unsigned(n2), 2) && DecodeValue(17, b) == Got(Unsigned(n4), 4)
            && (exists i :: Complement(i, n1, 0x100) && DecodeValue(12, b) == Got(Signed(i), 1))
            && (exists i :: Complement(i, n2, 0x1_0000) && DecodeValue(13, b) == Got(Signed(i), 2))
            && (exists i :: Complement(i, n4, 0x1_0000_0000) && DecodeValue(14, b) == Got(Signed(i), 4))
  {
    var n1, n2, n4 := b[0], ReadBE16(b), ReadBE32(b);
    assert Complement(AsSigned(n1, 0x100), n1, 0x100);
    assert Complement(AsSigned(n2, 0x1_0000), n2, 0x1_0000);
    assert Complement(AsSigned(n4, 0x1_0000_0000), n4, 0x1_0000_0000);
  }

  /** The two top bits of a UVARI tell how many bytes it has: 0 one, 10 two, 11 four; the others are the number. */
  lemma UvariReads(b: bytes)
    requires b != []
    ensures DecodeUvari(b) == if b[0] < 128 then Got(b[0] as int, 1)
                              else if b[0] < 192 then
                                if |b| == 1 then Fail else Got((b[0] as int - 128) * 256 + b[1] as int, 2)
                              else if |b| < 4 then Fail
                              else Got(((((b[0] as int - 192) * 256 + b[1] as int) * 256) + b[2] as int) * 256
                                       + b[3] as int, 4)
  {
  }

  function DecodeUnsigned(b: bytes): Decoded<Value>
  {
    match DecodeUvari(b)
    case Fail => Fail
    case Got(n, k) => Got(Unsigned(n), k)
  }

  // ----- Prefix stability -----

  /** d is what a decoder gives on b, and q what it gives on a prefix of length m:
      a success is the same as soon as its own bytes are there, and there is no success before that. */
  ghost predicate Stable<T>(d: Decoded<T>, q: Decoded<T>, m: nat)
  {
    && (d.Got? ==> q == if m >= d.len then d else Fail)
    && (q.Got? ==> d == q && d.len <= m)
  }

  lemma UvariStable(b: bytes, m: nat)
    requires m <= |b|
    ensures Stable(DecodeUvari(b), DecodeUvari(b[..m]), m)
  {
  }

  lemma IdentStable(b: bytes, m: nat)
    requires m <= |b|
    ensures Stable(DecodeIdent(b), DecodeIdent(b[..m]), m)
  {
    if m > 0 && b[0] + 1 <= m {
      assert b[..m][1..1 + b[0]] == b[1..1 + b[0]];
    }
  }

  lemma SliceOfPrefix(b: bytes, m: nat, i: nat, j: nat)
    requires i <= j <= m <= |b|
    ensures b[..m][i..j] == b[i..j]
  {
  }

  lemma AsciiStable(b: bytes, m: nat)
    requires m <= |b|
    ensures Stable(DecodeAscii(b), DecodeAscii(b[..m]), m)
  {
    hide DecodeUvari;
    UvariStable(b, m);
    match DecodeUvari(b)
    case Fail =>
    case Got(n, k) =>
      if k + n <= m {
        SliceOfPrefix(b, m, k, k + n);
      }
  }

  lemma ObnameStable(b: bytes, m: nat)
    requires m <= |b|
    ensures Stable(DecodeObname(b), DecodeObname(b[..m]), m)
  {
    UvariStable(b, m);
    match DecodeUvari(b)
    case Fail =>
    case Got(origin, k) =>
      if k + 1 <= m {
        IdentStable(b[k + 1..], m - k - 1);
        assert b[..m][k + 1..] == b[k + 1..][..m - k - 1];
      }
  }

  lemma ObjrefStable(b: bytes, m: nat)
    requires m <= |b|
    ensures Stable(DecodeObjref(b), DecodeObjref(b[..m]), m)
  {
    IdentStable(b, m);
    match DecodeIdent(b)
    case Fail =>
    case Got(kind, k) =>
      if k <= m {
        ObnameStable(b[k..], m - k);
        assert b[..m][k..] == b[k..][..m - k];
      }
  }

  /** Every decoder is bounded and prefix-stable, for every code: what it reads does not depend on
      what follows, and it never succeeds before its last byte has arrived. */
  lemma ValueStable(repcode: int, b: bytes, m: nat)
    requires 0 <= repcode < REPCODE_MAX
    requires m <= |b|
    ensures Stable(DecodeValue(repcode, b), DecodeValue(repcode, b[..m]), m)
  {
    hide DecodeUvari, DecodeIdent, DecodeAscii, DecodeObname, DecodeObjref;
    match repcode
    case 2 => if m >= 4 { assert b[..m][..4] == b[..4]; }
    case 7 => if m >= 8 { assert b[..m][..8] == b[..8]; }
    case 21 => if m >= 8 { assert b[..m][..8] == b[..8]; }
    case 18 => UvariStable(b, m);
    case 22 => UvariStable(b, m);
    case 19 => IdentStable(b, m);
    case 27 => IdentStable(b, m);
    case 20 => AsciiStable(b, m);
    case 23 => ObnameStable(b, m);
    case 24 => ObjrefStable(b, m);
    case _ =>
  }

  // ----- The encodings of Appendix B, and that the decoders invert them -----

  function EncodeUvari(n: nat): (b: bytes)
    requires n < 0x4000_0000
    ensures |b| == if n < 0x80 then 1 else if n < 0x4000 then 2 else 4
  {
    if n < 0x80 then [n]
    else if n < 0x4000 then WriteBE16(n + 0x8000)
    else WriteBE32(n + 0xC000_0000)
  }

  function EncodeIdent(s: bytes): bytes
    requires |s| < 256
  {
    [|s|] + s
  }

  function EncodeAscii(s: bytes): bytes
    requires |s| < 0x4000_0000
  {
    EncodeUvari(|s|) + s
  }

  ghost predicate ObnameFits(n: Obname)
  {
    n.origin < 0x4000_0000 && |n.name| < 256
  }

  function EncodeObname(n: Obname): bytes
    requires n.origin < 0x4000_0000 && |n.name| < 256
  {
    EncodeUvari(n.origin) + [n.copy] + EncodeIdent(n.name)
  }

  function EncodeObjref(kind: bytes, target: Obname): bytes
    requires |kind| < 256 && target.origin < 0x4000_0000 && |target.name| < 256
  {
    EncodeIdent(kind) + EncodeObname(target)
  }

  lemma UvariRoundTrip(n: nat, tail: bytes)
    requires n < 0x4000_0000
    ensures DecodeUvari(EncodeUvari(n) + tail) == Got(n, |EncodeUvari(n)|)
  {
    var e := EncodeUvari(n);
    if 0x80 <= n < 0x4000 {
      ReadBE16Local(e, tail);
    } else if n >= 0x4000 {
      ReadBE32Local(e, tail);
    }
  }

  lemma IdentRoundTrip(s: bytes, tail: bytes)
    requires |s| < 256
    ensures DecodeIdent(EncodeIdent(s) + tail) == Got(s, |EncodeIdent(s)|)
  {
    assert (EncodeIdent(s) + tail)[1..1 + |s|] == s;
  }

  lemma AsciiRoundTrip(s: bytes, tail: bytes)
    requires |s| < 0x4000_0000
    ensures DecodeAscii(EncodeAscii(s) + tail) == Got(s, |EncodeAscii(s)|)
  {
    var e := EncodeUvari(|s|);
    UvariRoundTrip(|s|, s + tail);
    assert EncodeAscii(s) + tail == e + (s + tail);
    assert (e + (s + tail))[|e|..|e| + |s|] == s;
  }

  lemma ObnameRoundTrip(n: Obname, tail: bytes)
    requires ObnameFits(n)
    ensures DecodeObname(EncodeObname(n) + tail) == Got(n, |EncodeObname(n)|)
  {
    var e := EncodeUvari(n.origin);
    var i := EncodeIdent(n.name);
    UvariRoundTrip(n.origin, [n.copy] + i + tail);
    var b := EncodeObname(n) + tail;
    assert b == e + ([n.copy] + i + tail);
    assert b[|e| + 1..] == i + tail;
    IdentRoundTrip(n.name, tail);
  }

  lemma ObjrefRoundTrip(kind: bytes, target: Obname, tail: bytes)
    requires |kind| < 256 && ObnameFits(target)
    ensures DecodeObjref(EncodeObjref(kind, target) + tail) == Got((kind, target), |EncodeObjref(kind, target)|)
  {
    var k := EncodeIdent(kind);
    var t := EncodeObname(target);
    var b := EncodeObjref(kind, target) + tail;
    assert b == k + (t + tail);
    IdentRoundTrip(kind, t + tail);
    assert b[|k|..] == t + tail;
    ObnameRoundTrip(target, tail);
  }

  /** Texts and object names, byte by byte: an IDENT is its length and its text, an OBNAME an origin, a copy number and
      an IDENT, an OBJREF an IDENT and an OBNAME. */
  lemma NamesRead(kind: bytes, origin: byte, copy: byte, s: bytes)
    requires |kind| < 128 && |s| < 128 && origin < 128
    ensures DecodeIdent([|s|] + s) == DecodeAscii([|s|] + s) == Got(s, 1 + |s|)
    ensures DecodeObname([origin, copy, |s|] + s) == Got(Obname(origin, copy, s), 3 + |s|)
    ensures DecodeObjref([|kind|] + kind + [origin, copy, |s|] + s) ==
            Got((kind, Obname(origin, copy, s)), 4 + |kind| + |s|)
  {
    hide DecodeIdent, DecodeAscii, DecodeObname, DecodeObjref, WriteBE16, WriteBE32;
    var name := [origin, copy, |s|] + s;
    var n := Obname(origin, copy, s);
    IdentRoundTrip(s, []);
    AsciiRoundTrip(s, []);
    ObnameRoundTrip(n, []);
    ObjrefRoundTrip(kind, n, []);
    assert EncodeIdent(s) + [] == EncodeAscii(s) + [] == [|s|] + s;
    assert EncodeObname(n) + [] == name;
    assert EncodeObjref(kind, n) + [] == [|kind|] + kind + [origin, copy, |s|] + s;
  }

  // ----- A run of values of one code -----

  /** The values decoded, and the bytes they took. */
  datatype Run = Run(values: seq<Value>, len: nat) {
    function Then(next: Run): Run
    {
      Run(values + next.values, len + next.len)
    }
  }

  const NO_RUN := Run([], 0)

  /** The loop of parse_iflr_data: at most n values, as long as they decode. */
  function DecodeRun(repcode: int, n: nat, b: bytes): (r: Run)
    requires 0 <= repcode < REPCODE_MAX
    ensures |r.values| <= n && |r.values| <= r.len <= |b|
    decreases n
  {
    if n == 0 then NO_RUN
    else
      match DecodeValue(repcode, b)
      case Fail => NO_RUN
      case Got(v, k) => Run([v], k).Then(DecodeRun(repcode, n - 1, b[k..]))
  }

  lemma ThenAssociates(a: Run, b: Run, c: Run)
    ensures a.Then(b).Then(c) == a.Then(b.Then(c))
    ensures NO_RUN.Then(a) == a
  {
    assert (a.values + b.values) + c.values == a.values + (b.values + c.values);
    assert [] + a.values == a.values;
  }

  /** ValueStable, as the loop uses it. */
  lemma ValueCut(repcode: int, b: bytes, m: nat)
    requires 0 <= repcode < REPCODE_MAX
    requires m <= |b|
    ensures var d := DecodeValue(repcode, b);
            DecodeValue(repcode, b[..m]) == if d.Got? && d.len <= m then d else Fail
  {
    hide DecodeValue;
    ValueStable(repcode, b, m);
  }

  /** One round of the loop, for a buffer that is whole and for one that is cut. */
  lemma RunUnfolds(repcode: int, n: nat, b: bytes)
    requires 0 <= repcode < REPCODE_MAX
    ensures var d := DecodeValue(repcode, b);
            DecodeRun(repcode, n, b) ==
            if n > 0 && d.Got? then Run([d.value], d.len).Then(DecodeRun(repcode, n - 1, b[d.len..])) else NO_RUN
  {
    hide DecodeValue;
  }

  /** Cutting a run of values anywhere loses nothing: decoding resumed at the first byte that was not
      read before the cut finds exactly the values that are missing. */
  lemma {:induction false} DecodeRunCut(repcode: int, n: nat, b: bytes, m: nat, p: Run, r: Run)
    requires 0 <= repcode < REPCODE_MAX
    requires m <= |b|
    requires p == DecodeRun(repcode, n, b[..m])
    requires r == DecodeRun(repcode, n - |p.values|, b[p.len..])
    ensures DecodeRun(repcode, n, b) == p.Then(r)
    ensures p.len + r.len <= m ==> r == NO_RUN
    decreases n
  {
    hide DecodeValue, DecodeRun;
    ValueCut(repcode, b, m);
    RunUnfolds(repcode, n, b);
    RunUnfolds(repcode, n, b[..m]);
    var d := DecodeValue(repcode, b);
    if n > 0 && d.Got? && d.len <= m {
      var k := d.len;
      assert b[..m][k..] == b[k..][..m - k];
      var q := DecodeRun(repcode, n - 1, b[k..][..m - k]);
      assert b[k..][q.len..] == b[p.len..];
      DecodeRunCut(repcode, n - 1, b[k..], m - k, q, r);
      ThenAssociates(Run([d.value], k), q, r);
    } else {
      assert b[0..] == b;
      ThenAssociates(r, r, r);
    }
  }
}
