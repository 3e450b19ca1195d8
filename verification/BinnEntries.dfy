/** The entries of a binn list, map or object (third-parties/binn/src/binn.c): their layout, and what the
    searches and walks over them find.  A name is found by length and by its letters without their case. */
module BinnEntries {
  import opened Bytes
  import opened BinnFormat

  /** A list entry has no key, a map entry a signed 32-bit number, an object entry a name of at most 255 bytes. */
  datatype Key = NoKey | Id(n: int) | Name(s: bytes)

  datatype Entry = Entry(key: Key, item: Item)

  function Low(c: byte): byte { if 65 <= c <= 90 then c + 32 else c }

  function Fold(s: bytes): (r: bytes)
    ensures |r| == |s| && forall i :: 0 <= i < |s| ==> r[i] == Low(s[i])
  {
    seq(|s|, i requires 0 <= i < |s| => Low(s[i]))
  }

  predicate SameKey(a: Key, b: Key)
  {
    match (a, b)
    case (Id(m), Id(n)) => m == n
    case (Name(s), Name(t)) => Fold(s) == Fold(t)
    case _ => false
  }

  /** The bytes are the same, or an ASCII letter and its other case. */
  ghost predicate SameLetter(a: byte, b: byte)
  {
    a == b || (65 <= a <= 90 && b == a + 32) || (65 <= b <= 90 && a == b + 32)
  }

  lemma SameKeyIs(a: Key, b: Key)
    ensures SameKey(a, b) <==>
            || (a.Id? && a == b)
            || (a.Name? && b.Name? && |a.s| == |b.s| && forall i :: 0 <= i < |a.s| ==> SameLetter(a.s[i], b.s[i]))
  {
    if a.Name? && b.Name? {
      if Fold(a.s) == Fold(b.s) {
        forall i | 0 <= i < |a.s| ensures SameLetter(a.s[i], b.s[i]) {
          assert Fold(a.s)[i] == Fold(b.s)[i];
        }
      }
    }
  }

  predicate KeyOk(tag: int, k: Key)
  {
    if tag == MAP then k.Id? && -TWO31 <= k.n < TWO31
    else if tag == OBJECT then k.Name? && |k.s| <= 255 && 0 !in k.s
    else k.NoKey?
  }

  predicate SomeKey(k: Key) { KeyOk(LIST, k) || KeyOk(MAP, k) || KeyOk(OBJECT, k) }

  function KeyBytes(k: Key): bytes
    requires SomeKey(k)
  {
    match k
    case NoKey => []
    case Id(n) => WriteBE32(if n < 0 then n + TWO32 else n)
    case Name(s) => [|s|] + s
  }

  ghost predicate EntryOk(tag: int, e: Entry) { KeyOk(tag, e.key) && ItemOk(e.item) && IsContainerType(tag) }

  ghost predicate EntriesOk(tag: int, es: seq<Entry>)
  {
    forall i :: 0 <= i < |es| ==> EntryOk(tag, es[i])
  }

  ghost function EntryBytes(tag: int, e: Entry): (b: bytes)
    requires EntryOk(tag, e)
  {
    KeyBytes(e.key) + Encode(e.item)
  }

  ghost function Payload(tag: int, es: seq<Entry>): bytes
    requires EntriesOk(tag, es)
  {
    if es == [] then [] else EntryBytes(tag, es[0]) + Payload(tag, es[1..])
  }

  lemma {:induction false} PayloadMore(tag: int, es: seq<Entry>, e: Entry)
    requires EntriesOk(tag, es) && EntryOk(tag, e)
    ensures EntriesOk(tag, es + [e]) && Payload(tag, es + [e]) == Payload(tag, es) + EntryBytes(tag, e)
  {
    if es == [] {
      assert es + [e] == [e] && [e][1..] == [];
    } else {
      PayloadMore(tag, es[1..], e);
      assert (es + [e])[1..] == es[1..] + [e];
      assert EntryBytes(tag, es[0]) + (Payload(tag, es[1..]) + EntryBytes(tag, e)) ==
             EntryBytes(tag, es[0]) + Payload(tag, es[1..]) + EntryBytes(tag, e);
    }
  }

  /** Where the entries begin in a buffer, and where they end. */
  ghost predicate LaidOut(buf: bytes, p: int, tag: int, es: seq<Entry>, end: int)
  {
    EntriesOk(tag, es) && Holds(buf, p, Payload(tag, es)) && end == p + |Payload(tag, es)|
  }

  lemma EncodeSome(it: Item)
    requires ItemOk(it)
    ensures |Encode(it)| >= 1
  {
    StorageKinds(it.tag);
  }

  /** The first of several entries: its key, its item behind it, and the rest. */
  lemma Head(buf: bytes, p: int, tag: int, es: seq<Entry>, end: int)
    requires LaidOut(buf, p, tag, es, end) && es != []
    ensures EntryOk(tag, es[0]) && Holds(buf, p, KeyBytes(es[0].key))
    ensures Holds(buf, p + |KeyBytes(es[0].key)|, Encode(es[0].item)) && |Encode(es[0].item)| >= 1
    ensures LaidOut(buf, p + |KeyBytes(es[0].key)| + |Encode(es[0].item)|, tag, es[1..], end)
    ensures 0 <= p && p + |KeyBytes(es[0].key)| + |Encode(es[0].item)| <= end
  {
    hide Holds, Encode, KeyBytes, ItemOk;
    HoldsJoin(buf, p, EntryBytes(tag, es[0]), Payload(tag, es[1..]));
    HoldsJoin(buf, p, KeyBytes(es[0].key), Encode(es[0].item));
    EncodeSome(es[0].item);
    HoldsAt(buf, p, KeyBytes(es[0].key));
  }

  lemma HoldsAt(buf: bytes, p: int, b: bytes)
    requires Holds(buf, p, b)
    ensures 0 <= p && p + |b| <= |buf|
  {
  }

  /** Past the first entry; None once there is nothing left before plimit. */
  lemma Past(buf: bytes, p: int, tag: int, es: seq<Entry>, end: int, plimit: int)
    requires LaidOut(buf, p, tag, es, end) && es != [] && end <= plimit + 1
    ensures 0 <= p && EntryOk(tag, es[0])
    ensures var q := p + |KeyBytes(es[0].key)|;
            var r := AdvanceDataPos(buf, q, plimit);
            && q <= plimit && (end <= plimit ==> r.Some?)
            && if r.Some? then r.value > q && LaidOut(buf, r.value, tag, es[1..], end) else es[1..] == []
  {
    hide Holds, Encode, KeyBytes, AdvanceDataPos, Payload, ItemOk;
    Head(buf, p, tag, es, end);
    AdvanceOver(buf, p + |KeyBytes(es[0].key)|, es[0].item, plimit);
    if es[1..] != [] {
      Head(buf, p + |KeyBytes(es[0].key)| + |Encode(es[0].item)|, tag, es[1..], end);
    }
  }

  // ----- Searches -----

  /** The position of the entry with this key. */
  function Lookup(es: seq<Entry>, key: Key): Option<nat>
  {
    if es == [] then None
    else if SameKey(es[0].key, key) then Some(0)
    else
      var r := Lookup(es[1..], key);
      if r.None? then None else Some(r.value + 1)
  }

  lemma {:induction false} LookupFinds(es: seq<Entry>, key: Key)
    ensures Lookup(es, key).None? <==> forall i :: 0 <= i < |es| ==> !SameKey(es[i].key, key)
    ensures Lookup(es, key).Some? ==>
              var i := Lookup(es, key).value;
              i < |es| && SameKey(es[i].key, key) && forall j :: 0 <= j < i ==> !SameKey(es[j].key, key)
  {
    if es != [] {
      LookupFinds(es[1..], key);
      assert forall i :: 1 <= i < |es| ==> es[i] == es[1..][i - 1];
    }
  }

  /** SearchForID over n entries from p on. */
  function FindId(buf: bytes, p: int, plimit: int, n: nat, id: int): Option<int>
    decreases n
  {
    if n == 0 || p + 4 > plimit then None
    else if Signed32(U32At(buf, p)) == id then Some(p + 4)
    else
      var q := AdvanceDataPos(buf, p + 4, plimit);
      if q.None? || q.value < 0 then None else FindId(buf, q.value, plimit, n - 1, id)
  }

  /** strnicmp: len bytes of the buffer are those of the string, up to a terminator, but for case. */
  predicate StrNIEqual(buf: bytes, q: int, key: bytes, i: nat, len: nat)
    decreases len - i
  {
    i >= len ||
    var a, b := Low(ByteAt(buf, q + i)), Low(ByteAt(key, i));
    a == b && (a == 0 || StrNIEqual(buf, q, key, i + 1, len))
  }

  /** SearchForKey over n entries from p on. */
  function FindKey(buf: bytes, p: int, plimit: int, n: nat, key: bytes): Option<int>
    decreases n
  {
    if n == 0 || p + 1 > plimit then None
    else
      var len := ByteAt(buf, p);
      if len > 0 && StrNIEqual(buf, p + 1, key, 0, len) && |key| == len then Some(p + 1 + len)
      else if len == 0 == |key| then Some(p + 1)
      else if p + 1 + len > plimit then None
      else
        var q := AdvanceDataPos(buf, p + 1 + len, plimit);
        if q.None? || q.value < 0 then None else FindKey(buf, q.value, plimit, n - 1, key)
  }

  /** What a search gives when the entries hold index i for the key. */
  ghost predicate Found(buf: bytes, es: seq<Entry>, i: Option<nat>, r: Option<int>)
  {
    if i.None? then r.None?
    else r.Some? && i.value < |es| && ItemOk(es[i.value].item) && Holds(buf, r.value, Encode(es[i.value].item))
  }

  lemma FoundLater(buf: bytes, es: seq<Entry>, i: Option<nat>, r: Option<int>)
    requires es != [] && Found(buf, es[1..], i, r)
    ensures Found(buf, es, if i.None? then None else Some(i.value + 1), r)
  {
    hide Holds, Encode, ItemOk;
    if i.Some? {
      assert es[i.value + 1] == es[1..][i.value];
    }
  }

  lemma IdRead(buf: bytes, p: int, n: int)
    requires -TWO31 <= n < TWO31 && Holds(buf, p, KeyBytes(Id(n)))
    ensures Signed32(U32At(buf, p)) == n && |KeyBytes(Id(n))| == 4
  {
    HoldsU32(buf, p, if n < 0 then n + TWO32 else n);
  }

  lemma {:induction false} FindIdIs(buf: bytes, p: int, es: seq<Entry>, end: int, id: int)
    requires LaidOut(buf, p, MAP, es, end)
    ensures Found(buf, es, Lookup(es, Id(id)), FindId(buf, p, end - 1, |es|, id))
    decreases |es|
  {
    hide Holds, KeyBytes, AdvanceDataPos, LaidOut, ItemOk, Encode, U32At;
    if es != [] {
      Head(buf, p, MAP, es, end);
      Past(buf, p, MAP, es, end, end - 1);
      IdRead(buf, p, es[0].key.n);
      if es[0].key.n != id {
        var q := AdvanceDataPos(buf, p + 4, end - 1);
        if q.Some? {
          FindIdIs(buf, q.value, es[1..], end, id);
          FoundLater(buf, es, Lookup(es[1..], Id(id)), FindId(buf, q.value, end - 1, |es| - 1, id));
        }
      }
    }
  }

  lemma {:induction false} StrNIEqualIs(buf: bytes, q: int, s: bytes, key: bytes, i: nat)
    requires Holds(buf, q, s) && |s| == |key| && 0 !in s && i <= |s|
    ensures StrNIEqual(buf, q, key, i, |s|) <==> forall j :: i <= j < |s| ==> Low(s[j]) == Low(key[j])
    decreases |s| - i
  {
    if i < |s| {
      HoldsByte(buf, q, s, i);
      assert s[i] in s;
      StrNIEqualIs(buf, q, s, key, i + 1);
    }
  }

  lemma NameRead(buf: bytes, p: int, s: bytes, key: bytes)
    requires |s| <= 255 && 0 !in s && Holds(buf, p, KeyBytes(Name(s)))
    ensures ByteAt(buf, p) == |s| && |KeyBytes(Name(s))| == 1 + |s|
    ensures |key| == |s| ==> (StrNIEqual(buf, p + 1, key, 0, |s|) <==> Fold(s) == Fold(key))
  {
    hide Holds;
    var n: byte := |s|;
    assert KeyBytes(Name(s)) == [n] + s;
    HoldsByte(buf, p, KeyBytes(Name(s)), 0);
    HoldsJoin(buf, p, [n], s);
    if |key| == |s| {
      StrNIEqualIs(buf, p + 1, s, key, 0);
      if Fold(s) == Fold(key) {
        forall j | 0 <= j < |s| ensures Low(s[j]) == Low(key[j]) { assert Fold(s)[j] == Fold(key)[j]; }
      }
    } 
  }

  lemma {:induction false} FindKeyIs(buf: bytes, p: int, es: seq<Entry>, end: int, key: bytes)
    requires LaidOut(buf, p, OBJECT, es, end)
    ensures Found(buf, es, Lookup(es, Name(key)), FindKey(buf, p, end - 1, |es|, key))
    decreases |es|
  {
    hide Holds, KeyBytes, AdvanceDataPos, LaidOut, ItemOk, Encode, StrNIEqual, Fold;
    if es != [] {
      Head(buf, p, OBJECT, es, end);
      Past(buf, p, OBJECT, es, end, end - 1);
      var s := es[0].key.s;
      NameRead(buf, p, s, key);
      FoldLength(s, key);
      if !SameKey(es[0].key, Name(key)) {
        var q := AdvanceDataPos(buf, p + 1 + |s|, end - 1);
        if q.Some? {
          FindKeyIs(buf, q.value, es[1..], end, key);
          FoundLater(buf, es, Lookup(es[1..], Name(key)), FindKey(buf, q.value, end - 1, |es| - 1, key));
        }
      }
    }
  }

  lemma FoldLength(s: bytes, t: bytes)
    ensures Fold(s) == Fold(t) ==> |s| == |t|
    ensures |s| == |t| == 0 ==> Fold(s) == Fold(t)
  {
    assert |Fold(s)| == |s| && |Fold(t)| == |t|;
  }
}
