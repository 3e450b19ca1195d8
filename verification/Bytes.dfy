/** Bytes, and the big-endian integers all three formats of this repository use. */
module Bytes {

  type byte = x: int | 0 <= x < 256

  type bytes = seq<byte>

  datatype Option<+T> = None | Some(value: T)

  const TWO16: int := 0x1_0000
  const TWO32: int := 0x1_0000_0000
  const TWO64: int := 0x1_0000_0000_0000_0000

  /** The number of a non-empty, big-endian run of bytes. */
  function ReadBE16(b: bytes): (n: nat)
    requires |b| >= 2
    ensures n < TWO16
  {
    (b[0] as int) * 0x100 + b[1]
  }

  function ReadBE32(b: bytes): (n: nat)
    requires |b| >= 4
    ensures n < TWO32
  {
    (b[0] as int) * 0x100_0000 + (b[1] as int) * 0x1_0000 + (b[2] as int) * 0x100 + b[3]
  }

  function WriteBE16(n: nat): (b: bytes)
    requires n < TWO16
    ensures |b| == 2 && ReadBE16(b) == n
  {
    [n / 0x100, n % 0x100]
  }

  function WriteBE32(n: nat): (b: bytes)
    requires n < TWO32
    ensures |b| == 4 && ReadBE32(b) == n
  {
    WriteBE16(n / TWO16) + WriteBE16(n % TWO16)
  }

  /** A big-endian number read at the front of a longer run only looks at its own bytes. */
  lemma ReadBE32Local(b: bytes, tail: bytes)
    requires |b| >= 4
    ensures ReadBE32(b + tail) == ReadBE32(b) == ReadBE32(b[..4])
  {
  }

  lemma ReadBE16Local(b: bytes, tail: bytes)
    requires |b| >= 2
    ensures ReadBE16(b + tail) == ReadBE16(b) == ReadBE16(b[..2])
  {
  }

  /** One run after the other. */
  function Joined(runs: seq<bytes>): bytes
  {
    if runs == [] then [] else runs[0] + Joined(runs[1..])
  }

  lemma {:induction false} JoinedMore(runs: seq<bytes>, b: bytes)
    ensures Joined(runs + [b]) == Joined(runs) + b
  {
    if runs == [] {
      assert runs + [b] == [b] && [b][1..] == [];
    } else {
      assert (runs + [b])[1..] == runs[1..] + [b];
      JoinedMore(runs[1..], b);
    }
  }

  /** The bytes in front of the first zero, which are all that is seen of a C string. */
  function CStr(s: bytes): (r: bytes)
    ensures r <= s && 0 !in r && (|r| < |s| ==> s[|r|] == 0)
  {
    if s == [] || s[0] == 0 then [] else [s[0]] + CStr(s[1..])
  }

  lemma CStrWhole(s: bytes)
    ensures CStr(s) == s <==> 0 !in s
  {
    if CStr(s) != s {
      assert s[|CStr(s)|] == 0;
    }
  }

  lemma {:induction false} ZeroEnds(s: bytes, n: nat)
    requires n < |s| && s[n] == 0
    ensures |CStr(s)| <= n
  {
    if n > 0 {
      ZeroEnds(s[1..], n - 1);
    }
  }

  function Min(a: int, b: int): int { if a <= b then a else b }

  function Max(a: int, b: int): int { if a >= b then a else b }
}
