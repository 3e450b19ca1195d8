/** The reading functions of binn (third-parties/binn/src/binn.c), on the memory that begins at the container.
    The loops are methods, each proved equal to a function; what that function finds in a container that was
    saved is what was put in. */
module BinnReader {
  import opened Bytes
  import opened BinnFormat
  import opened BinnEntries

  // ----- A saved container -----

  ghost predicate FitsSaved(tag: int, es: seq<Entry>)
  {
    && IsContainerType(tag) && EntriesOk(tag, es)
    && |es| < TWO31 && SavedSize(|es|, |Payload(tag, es)|) < TWO31
  }

  ghost function SavedEntries(tag: int, es: seq<Entry>): (b: bytes)
    requires FitsSaved(tag, es)
  {
    Saved(tag, |es|, Payload(tag, es))
  }

  /** The memory begins with the container of these entries. */
  ghost predicate Contains(buf: bytes, tag: int, es: seq<Entry>)
  {
    FitsSaved(tag, es) && Holds(buf, 0, SavedEntries(tag, es))
  }

  /** IsValidBinnHeader recovers the type, the count and the size; the entries lie behind the header. */
  lemma ContainsHeader(buf: bytes, tag: int, es: seq<Entry>, given: int)
    requires Contains(buf, tag, es) && (given > 0 ==> given >= |SavedEntries(tag, es)|)
    ensures HeaderAt(buf, 0, given).Some?
    ensures var h := HeaderAt(buf, 0, given).value;
            && h.tag == tag && h.count == |es| && h.size == |SavedEntries(tag, es)|
            && 3 <= h.length && LaidOut(buf, h.length, tag, es, h.size)
  {
    hide Holds, HeaderAt, HeaderBytes, Payload;
    var size := SavedSize(|es|, |Payload(tag, es)|);
    HoldsJoin(buf, 0, HeaderBytes(tag, |es|, size), Payload(tag, es));
    HeaderRead(buf, 0, tag, |es|, size, given);
  }

  // ----- Searches -----

  method SearchForID(buf: bytes, headerSize: int, size: int, numItems: nat, id: int) returns (r: Option<int>)
    ensures r == FindId(buf, headerSize, size - 1, numItems, id)
  {
    hide AdvanceDataPos, U32At;
    var plimit := size - 1;
    var p := headerSize;
    var i := 0;
    while i < numItems
      invariant 0 <= i <= numItems
      invariant FindId(buf, headerSize, size - 1, numItems, id) == FindId(buf, p, plimit, numItems - i, id)
    {
      var int32 := Signed32(U32At(buf, p));
      p := p + 4;
      if p > plimit {
        return None;
      }
      if int32 == id {
        return Some(p);
      }
      var q := AdvanceDataPos(buf, p, plimit);
      if q.None? || q.value < 0 {
        return None;
      }
      p := q.value;
      i := i + 1;
    }
    return None;
  }

  method SearchForKey(buf: bytes, headerSize: int, size: int, numItems: nat, key: bytes) returns (r: Option<int>)
    ensures r == FindKey(buf, headerSize, size - 1, numItems, key)
  {
    hide AdvanceDataPos, StrNIEqual, ByteAt;
    var plimit := size - 1;
    var p := headerSize;
    var i := 0;
    while i < numItems
      invariant 0 <= i <= numItems
      invariant FindKey(buf, headerSize, size - 1, numItems, key) == FindKey(buf, p, plimit, numItems - i, key)
    {
      var len := ByteAt(buf, p);
      p := p + 1;
      if p > plimit {
        return None;
      }
      if len > 0 {
        if StrNIEqual(buf, p, key, 0, len) {
          if |key| == len {
            return Some(p + len);
          }
        }
        p := p + len;
        if p > plimit {
          return None;
        }
      } else if len == |key| {
        return Some(p);
      }
      var q := AdvanceDataPos(buf, p, plimit);
      if q.None? || q.value < 0 {
        return None;
      }
      p := q.value;
      i := i + 1;
    }
    return None;
  }

  function GetFrom(buf: bytes, p: Option<int>): Option<Value>
  {
    if p.None? then None else GetValue(buf, p.value)
  }

  function ObjectGet(buf: bytes, key: bytes): Option<Value>
  {
    var h := HeaderAt(buf, 0, 0);
    if h.None? || h.value.tag != OBJECT || h.value.count == 0 then None
    else GetFrom(buf, FindKey(buf, h.value.length, h.value.size - 1, Max(0, h.value.count), key))
  }

  function MapGet(buf: bytes, id: int): Option<Value>
  {
    var h := HeaderAt(buf, 0, 0);
    if h.None? || h.value.tag != MAP || h.value.count == 0 then None
    else GetFrom(buf, FindId(buf, h.value.length, h.value.size - 1, Max(0, h.value.count), id))
  }

  /** binn_object_get_value */
  method ObjectGetValue(buf: bytes, key: bytes) returns (value: Option<Value>)
    ensures value == ObjectGet(buf, key)
  {
    var h := HeaderAt(buf, 0, 0);
    if h.None? || h.value.tag != OBJECT || h.value.count == 0 {
      return None;
    }
    var p := SearchForKey(buf, h.value.length, h.value.size, Max(0, h.value.count), key);
    if p.None? {
      return None;
    }
    return GetValue(buf, p.value);
  }

  /** binn_map_get_value */
  method MapGetValue(buf: bytes, id: int) returns (value: Option<Value>)
    ensures value == MapGet(buf, id)
  {
    var h := HeaderAt(buf, 0, 0);
    if h.None? || h.value.tag != MAP || h.value.count == 0 {
      return None;
    }
    var p := SearchForID(buf, h.value.length, h.value.size, Max(0, h.value.count), id);
    if p.None? {
      return None;
    }
    return GetValue(buf, p.value);
  }

  /** What the entries hold for a key. */
  ghost function Held(tag: int, es: seq<Entry>, key: Key): Option<Value>
    requires EntriesOk(tag, es)
  {
    var i := Lookup(es, key);
    if i.None? || i.value >= |es| then None else Some(View(es[i.value].item))
  }

  lemma FoundIsHeld(buf: bytes, tag: int, es: seq<Entry>, key: Key, r: Option<int>)
    requires EntriesOk(tag, es) && Found(buf, es, Lookup(es, key), r)
    ensures GetFrom(buf, r) == Held(tag, es, key)
  {
    hide GetValue, View, Encode, Holds, ItemOk, Lookup;
    LookupFinds(es, key);
    if r.Some? {
      GetOver(buf, r.value, es[Lookup(es, key).value].item);
    }
  }

  /** A saved object is a finite map from names, but for their case, to values. */
  lemma ObjectGetIs(buf: bytes, es: seq<Entry>, key: bytes)
    requires Contains(buf, OBJECT, es)
    ensures ObjectGet(buf, key) == Held(OBJECT, es, Name(key))
  {
    hide HeaderAt, FindKey, Lookup, Contains, GetFrom, Found;
    ContainsHeader(buf, OBJECT, es, 0);
    var h := HeaderAt(buf, 0, 0).value;
    LookupFinds(es, Name(key));
    if h.count > 0 {
      FindKeyIs(buf, h.length, es, h.size, key);
      FoundIsHeld(buf, OBJECT, es, Name(key), FindKey(buf, h.length, h.size - 1, |es|, key));
    }
  }

  lemma MapGetIs(buf: bytes, es: seq<Entry>, id: int)
    requires Contains(buf, MAP, es)
    ensures MapGet(buf, id) == Held(MAP, es, Id(id))
  {
    hide HeaderAt, FindId, Lookup, Contains, GetFrom, Found;
    ContainsHeader(buf, MAP, es, 0);
    var h := HeaderAt(buf, 0, 0).value;
    LookupFinds(es, Id(id));
    if h.count > 0 {
      FindIdIs(buf, h.length, es, h.size, id);
      FoundIsHeld(buf, MAP, es, Id(id), FindId(buf, h.length, h.size - 1, |es|, id));
    }
  }

  lemma {:induction false} LookupMore(es: seq<Entry>, e: Entry, key: Key)
    ensures Lookup(es + [e], key) ==
              if Lookup(es, key).Some? then Lookup(es, key) else if SameKey(e.key, key) then Some(|es|) else None
  {
    if es == [] {
      assert es + [e] == [e] && [e][1..] == [];
    } else {
      assert (es + [e])[1..] == es[1..] + [e];
      LookupMore(es[1..], e, key);
    }
  }

  /** A set entry is found under its key and under no other; the others are found as before. */
  lemma HeldAfterSet(tag: int, es: seq<Entry>, e: Entry, key: Key)
    requires EntriesOk(tag, es) && EntryOk(tag, e) && Lookup(es, e.key).None?
    ensures EntriesOk(tag, es + [e])
    ensures Held(tag, es + [e], key) == if SameKey(e.key, key) then Some(View(e.item)) else Held(tag, es, key)
  {
    hide Lookup, SameKey, View, ItemOk, KeyOk;
    LookupMore(es, e, key);
    LookupFinds(es, key);
    LookupFinds(es, e.key);
    if SameKey(e.key, key) {
      forall i | 0 <= i < |es| ensures !SameKey(es[i].key, key) {
        SameKeyJoins(es[i].key, key, e.key);
      }
    }
  }

  lemma SameKeyJoins(a: Key, b: Key, c: Key)
    requires SameKey(c, b)
    ensures SameKey(a, b) ==> SameKey(a, c)
  {
  }

  /** What a set does, whether it succeeds or the key is there already: the first value of a key stays. */
  lemma HeldAfterTry(tag: int, es: seq<Entry>, e: Entry, key: Key)
    requires EntriesOk(tag, es) && EntryOk(tag, e)
    ensures var after := if Lookup(es, e.key).None? then es + [e] else es;
            && EntriesOk(tag, after)
            && Held(tag, after, key) == if Held(tag, es, key).Some? then Held(tag, es, key)
                                        else if SameKey(e.key, key) then Some(View(e.item)) else None
  {
    hide Lookup, SameKey, View, ItemOk, KeyOk;
    LookupFinds(es, key);
    LookupFinds(es, e.key);
    if Lookup(es, e.key).None? {
      HeldAfterSet(tag, es, e, key);
      forall i | 0 <= i < |es| && SameKey(e.key, key) ensures !SameKey(es[i].key, key) {
        SameKeyJoins(es[i].key, key, e.key);
      }
    } else if SameKey(e.key, key) {
      SameKeyThrough(es[Lookup(es, e.key).value].key, e.key, key);
    }
  }

  lemma SameKeyThrough(a: Key, b: Key, c: Key)
    requires SameKey(a, b) && SameKey(b, c)
    ensures SameKey(a, c)
  {
  }

  // ----- Lists by position -----

  /** Past n items; None as soon as one does not end in front of plimit. */
  function SkipItems(buf: bytes, p: int, plimit: int, n: nat): Option<int>
    decreases n
  {
    if n == 0 then Some(p)
    else
      var q := AdvanceDataPos(buf, p, plimit);
      if q.None? || q.value < 0 then None else SkipItems(buf, q.value, plimit, n - 1)
  }

  function ListGet(buf: bytes, pos: int): Option<Value>
  {
    var h := HeaderAt(buf, 0, 0);
    if h.None? || h.value.tag != LIST || h.value.count == 0 || pos <= 0 || pos > h.value.count then None
    else GetFrom(buf, SkipItems(buf, h.value.length, h.value.size, pos - 1))
  }

  /** binn_list_get_value, which counts from 1. */
  method ListGetValue(buf: bytes, pos: int) returns (value: Option<Value>)
    ensures value == ListGet(buf, pos)
  {
    var h := HeaderAt(buf, 0, 0);
    if h.None? || h.value.tag != LIST || h.value.count == 0 || pos <= 0 || pos > h.value.count {
      return None;
    }
    var plimit := h.value.size;
    var p := h.value.length;
    var i := 0;
    while i < pos - 1
      invariant 0 <= i <= pos - 1
      invariant SkipItems(buf, h.value.length, plimit, pos - 1) == SkipItems(buf, p, plimit, pos - 1 - i)
    {
      var q := AdvanceDataPos(buf, p, plimit);
      if q.None? || q.value < 0 {
        return None;
      }
      p := q.value;
      i := i + 1;
    }
    return GetValue(buf, p);
  }

  lemma {:induction false} SkipItemsIs(buf: bytes, p: int, es: seq<Entry>, end: int, n: nat)
    requires LaidOut(buf, p, LIST, es, end) && n < |es|
    ensures SkipItems(buf, p, end, n).Some? && ItemOk(es[n].item)
    ensures Holds(buf, SkipItems(buf, p, end, n).value, Encode(es[n].item))
    decreases n
  {
    hide Holds, AdvanceDataPos, LaidOut, ItemOk, Encode;
    Head(buf, p, LIST, es, end);
    assert KeyBytes(es[0].key) == [];
    if n > 0 {
      Past(buf, p, LIST, es, end, end);
      SkipItemsIs(buf, AdvanceDataPos(buf, p, end).value, es[1..], end, n - 1);
    }
  }

  /** Indexing a saved list gives the values in the order they were added. */
  lemma ListGetIs(buf: bytes, es: seq<Entry>, pos: int)
    requires Contains(buf, LIST, es)
    ensures ListGet(buf, pos) == if 1 <= pos <= |es| then Some(View(es[pos - 1].item)) else None
  {
    hide HeaderAt, SkipItems, Contains, Holds, ItemOk, Encode, View, GetValue;
    ContainsHeader(buf, LIST, es, 0);
    var h := HeaderAt(buf, 0, 0).value;
    if 1 <= pos <= |es| {
      SkipItemsIs(buf, h.length, es, h.size, pos - 1);
      GetOver(buf, SkipItems(buf, h.length, h.size, pos - 1).value, es[pos - 1].item);
    }
  }

  // ----- binn_is_valid -----

  function KeyEnd(buf: bytes, tag: int, p: int): int
  {
    if tag == OBJECT then p + 1 + ByteAt(buf, p) else if tag == MAP then p + 4 else p
  }

  /** n entries from p on are skipped one after the other. */
  function WalkOk(buf: bytes, tag: int, p: int, plimit: int, n: nat): bool
    decreases n
  {
    n == 0 ||
    var q := AdvanceDataPos(buf, KeyEnd(buf, tag, p), plimit);
    q.Some? && q.value >= 0 && WalkOk(buf, tag, q.value, plimit, n - 1)
  }

  /** What the caller knows of a container: 0 where it knows nothing. */
  datatype Known = Known(tag: int, count: int, size: int)

  function Agrees(known: int, found: int): bool { known <= 0 || known == found }

  function Valid(buf: bytes, known: Known): Option<Header>
  {
    var h := HeaderAt(buf, 0, known.size);
    if h.None? || !Agrees(known.count, h.value.count) || (known.tag != 0 && known.tag != h.value.tag) then None
    else
      var size := if known.size > 0 then known.size else h.value.size;
      if WalkOk(buf, h.value.tag, h.value.length, size, Max(0, h.value.count)) then Some(h.value) else None
  }

  /** binn_is_valid_ex */
  method IsValidEx(buf: bytes, known: Known) returns (r: Option<Header>)
    ensures r == Valid(buf, known)
  {
    hide AdvanceDataPos, HeaderAt, KeyEnd;
    var h := HeaderAt(buf, 0, known.size);
    if h.None? || !Agrees(known.count, h.value.count) || (known.tag != 0 && known.tag != h.value.tag) {
      return None;
    }
    var plimit := if known.size > 0 then known.size else h.value.size;
    var p, i := h.value.length, 0;
    var n := Max(0, h.value.count);
    while i < n
      invariant 0 <= i <= n
      invariant WalkOk(buf, h.value.tag, h.value.length, plimit, n) == WalkOk(buf, h.value.tag, p, plimit, n - i)
    {
      var q := AdvanceDataPos(buf, KeyEnd(buf, h.value.tag, p), plimit);
      if q.None? || q.value < 0 {
        return None;
      }
      p := q.value;
      i := i + 1;
    }
    return Some(h.value);
  }

  lemma KeyEndIs(buf: bytes, tag: int, p: int, k: Key)
    requires KeyOk(tag, k) && IsContainerType(tag) && Holds(buf, p, KeyBytes(k))
    ensures KeyEnd(buf, tag, p) == p + |KeyBytes(k)|
  {
    if k.Name? {
      NameRead(buf, p, k.s, k.s);
    }
  }

  /** A limit further on changes nothing. */
  lemma AdvanceSame(buf: bytes, p: int, a: int, b: int)
    requires a <= b && AdvanceDataPos(buf, p, a).Some?
    ensures AdvanceDataPos(buf, p, b) == AdvanceDataPos(buf, p, a)
  {
    hide Width, StorageOf;
  }

  /** Entries are walked over iff they end by the limit. */
  lemma {:induction false} WalkIs(buf: bytes, p: int, tag: int, es: seq<Entry>, end: int, plimit: int)
    requires LaidOut(buf, p, tag, es, end) && es != []
    ensures WalkOk(buf, tag, p, plimit, |es|) <==> end <= plimit
    decreases |es|
  {
    hide Holds, AdvanceDataPos, LaidOut, ItemOk, Encode, KeyBytes, KeyEnd;
    Head(buf, p, tag, es, end);
    Past(buf, p, tag, es, end, Max(end, plimit));
    KeyEndIs(buf, tag, p, es[0].key);
    var k := p + |KeyBytes(es[0].key)|;
    var q := AdvanceDataPos(buf, k, plimit);
    if q.Some? {
      AdvanceSame(buf, k, plimit, Max(end, plimit));
      if es[1..] == [] {
        LaidOutNone(buf, q.value, tag, es[1..], end);
        AdvanceInside(buf, k, plimit);
      } else {
        WalkIs(buf, q.value, tag, es[1..], end, plimit);
      }
    }
  }

  lemma LaidOutNone(buf: bytes, p: int, tag: int, es: seq<Entry>, end: int)
    requires LaidOut(buf, p, tag, es, end) && es == []
    ensures end == p
  {
  }

  lemma AdvanceInside(buf: bytes, p: int, plimit: int)
    requires AdvanceDataPos(buf, p, plimit).Some?
    ensures AdvanceDataPos(buf, p, plimit).value <= plimit
  {
  }

  /** binn_is_valid accepts what was saved, and says what it is, unless the caller knows better: another type, another
      count, or less room. */
  lemma ValidIs(buf: bytes, tag: int, es: seq<Entry>, known: Known)
    requires Contains(buf, tag, es)
    ensures Valid(buf, known).Some? <==>
            && known.tag in {0, tag} && (known.count > 0 ==> known.count == |es|)
            && (known.size > 0 ==> known.size >= |SavedEntries(tag, es)|)
    ensures Valid(buf, known).Some? ==>
              var h := Valid(buf, known).value;
              h.tag == tag && h.count == |es| && h.size == |SavedEntries(tag, es)|
  {
    assert FitsSaved(tag, es);
    hide HeaderAt, WalkOk, Contains, SavedEntries, FitsSaved;
    if known.size <= 0 || known.size >= |SavedEntries(tag, es)| {
      ContainsHeader(buf, tag, es, known.size);
      var h := HeaderAt(buf, 0, known.size).value;
      if es == [] {
        WalkNone(buf, tag, h.length, if known.size > 0 then known.size else h.size);
      } else {
        WalkIs(buf, h.length, tag, es, h.size, if known.size > 0 then known.size else h.size);
      }
    } else {
      TooShort(buf, tag, es, known);
    }
  }

  /** A container longer than the size that is known. */
  lemma TooShort(buf: bytes, tag: int, es: seq<Entry>, known: Known)
    requires Contains(buf, tag, es) && 0 < known.size < |SavedEntries(tag, es)|
    ensures Valid(buf, known).None?
  {
    hide HeaderAt, WalkOk, SavedEntries;
    if HeaderAt(buf, 0, known.size).Some? {
      HeaderInside(buf, known.size);
      ContainsHeader(buf, tag, es, 0);
      var h := HeaderAt(buf, 0, 0).value;
      if es == [] {
        LaidOutNone(buf, h.length, tag, es, h.size);
      } else {
        WalkIs(buf, h.length, tag, es, h.size, known.size);
      }
    }
  }

  lemma WalkNone(buf: bytes, tag: int, p: int, plimit: int)
    ensures WalkOk(buf, tag, p, plimit, 0)
  {
  }

  /** A header only shows within the size that the caller gives. */
  lemma HeaderInside(buf: bytes, given: int)
    requires given > 0 && HeaderAt(buf, 0, given).Some?
    ensures HeaderAt(buf, 0, 0) == HeaderAt(buf, 0, given) && HeaderAt(buf, 0, given).value.length <= given
    ensures HeaderAt(buf, 0, given).value.length >= 3
  {
  }

  /** The comment in the code says that a size the caller knows must be that of the buffer.  It is taken for
      the limit instead, because IsValidBinnHeader leaves it alone: a container is refused iff it is longer. */
  lemma KnownSizeIsALimit(buf: bytes, tag: int, es: seq<Entry>, size: int)
    requires Contains(buf, tag, es) && size > 0
    ensures Valid(buf, Known(0, 0, size)).Some? <==> size >= |SavedEntries(tag, es)|
  {
    hide HeaderAt, WalkOk, SavedEntries;
    ValidIs(buf, tag, es, Known(0, 0, size));
  }

  /** An empty list, three bytes long, that the caller believes to be five bytes long. */
  lemma KnownSizeMayDiffer()
    ensures Valid([0xE0, 3, 0, 0, 0], Known(0, 0, 5)) == Some(Header(LIST, 0, 3, 3))
  {
  }

  // ----- Iteration -----

  datatype Member = Member(key: Key, value: Value)

  /** The key at p: the number or the name that is copied out. */
  function ReadKey(buf: bytes, tag: int, p: int): Key
  {
    if tag == OBJECT then Name(Slice(buf, p + 1, ByteAt(buf, p)))
    else if tag == MAP then Id(Signed32(U32At(buf, p)))
    else NoKey
  }

  lemma KeyIs(buf: bytes, tag: int, p: int, k: Key)
    requires KeyOk(tag, k) && IsContainerType(tag) && Holds(buf, p, KeyBytes(k))
    ensures ReadKey(buf, tag, p) == k && KeyEnd(buf, tag, p) == p + |KeyBytes(k)|
  {
    hide U32At, Fold;
    KeyEndIs(buf, tag, p, k);
    match k
    case NoKey =>
    case Id(n) => IdRead(buf, p, n);
    case Name(s) =>
      var n: byte := |s|;
      NameRead(buf, p, s, s);
      HoldsJoin(buf, p, [n], s);
      HoldsSlice(buf, p + 1, s);
  }

  /** What the entries are read as. */
  ghost function Members(tag: int, es: seq<Entry>): (ms: seq<Member>)
    requires EntriesOk(tag, es)
  {
    seq(|es|, i requires 0 <= i < |es| => Member(es[i].key, View(es[i].item)))
  }

  /** binn_iter over memory that begins with the container; pnext is None for 0. */
  class BinnIter {
    const buf: bytes
    var pnext: Option<int>
    var plimit: int
    var count: int
    var current: int
    var tag: int

    constructor (buf: bytes)
      ensures this.buf == buf && pnext == None
    {
      this.buf := buf;
      pnext, plimit, count, current, tag := None, 0, 0, 0, 0;
    }

    /** These entries have not been read yet. */
    ghost predicate Ahead(rest: seq<Entry>)
      reads this
    {
      && IsContainerType(tag) && 0 <= current
      && if rest == [] then current >= count
         else current + |rest| == count && pnext.Some? && LaidOut(buf, pnext.value, tag, rest, plimit + 1)
    }

    /** binn_iter_init */
    method Init(expected: int) returns (ok: bool)
      modifies this
      ensures forall t, es :: Contains(buf, t, es) ==> ok == (t == expected) && (ok ==> tag == t && Ahead(es))
    {
      hide HeaderAt, Contains, LaidOut;
      pnext, plimit, count, current, tag := None, 0, 0, 0, 0;
      var h := HeaderAt(buf, 0, 0);
      forall t, es | Contains(buf, t, es) ensures h.Some? && h.value.tag == t && h.value.count == |es| &&
                                                  LaidOut(buf, h.value.length, t, es, h.value.size) &&
                                                      IsContainerType(t) {
        ContainsHeader(buf, t, es, 0);
        ContainsType(buf, t, es);
      }
      if h.None? || h.value.tag != expected {
        return false;
      }
      plimit := h.value.size - 1;
      pnext := Some(h.value.length);
      count := h.value.count;
      current := 0;
      tag := h.value.tag;
      return true;
    }

    /** binn_list_next */
    method ListNext(ghost rest: seq<Entry>) returns (value: Option<Value>)
      requires Ahead(rest) && tag == LIST
      modifies this
      ensures tag == LIST
      ensures if rest == [] then value == None && Ahead([]) && pnext == old(pnext)
              else ItemOk(rest[0].item) && value == Some(View(rest[0].item)) && Ahead(rest[1..])
    {
      hide LaidOut, ItemOk, Encode, Holds, View, AdvanceDataPos, GetValue;
      if rest != [] {
        Head(buf, pnext.value, tag, rest, plimit + 1);
        assert KeyBytes(rest[0].key) == [];
        Past(buf, pnext.value, tag, rest, plimit + 1, plimit);
        GetOver(buf, pnext.value, rest[0].item);
      }
      if pnext.None? || pnext.value > plimit || current > count || tag != LIST {
        return None;
      }
      current := current + 1;
      if current > count {
        return None;
      }
      var pnow := pnext.value;
      pnext := AdvanceDataPos(buf, pnow, plimit);
      if pnext.Some? && pnext.value < pnow {
        return None;
      }
      return GetValue(buf, pnow);
    }

    /** binn_read_next_pair: binn_map_next and binn_object_next. */
    method NextPair(expected: int, ghost rest: seq<Entry>) returns (m: Option<Member>)
      requires Ahead(rest) && tag == expected && expected in {MAP, OBJECT}
      modifies this
      ensures tag == expected
      ensures if rest == [] then m == None && Ahead([])
              else EntryOk(tag, rest[0]) && m == Some(Member(rest[0].key, View(rest[0].item))) && Ahead(rest[1..])
    {
      hide LaidOut, ItemOk, Encode, Holds, View, AdvanceDataPos, GetValue, KeyBytes, ReadKey, KeyEnd;
      if rest != [] {
        Head(buf, pnext.value, tag, rest, plimit + 1);
        Past(buf, pnext.value, tag, rest, plimit + 1, plimit);
        KeyIs(buf, tag, pnext.value, rest[0].key);
        GetOver(buf, pnext.value + |KeyBytes(rest[0].key)|, rest[0].item);
      }
      if pnext.None? || pnext.value > plimit || current > count || tag != expected {
        return None;
      }
      current := current + 1;
      if current > count {
        return None;
      }
      var key := ReadKey(buf, tag, pnext.value);
      var p := KeyEnd(buf, tag, pnext.value);
      if p > plimit {
        return None;
      }
      pnext := AdvanceDataPos(buf, p, plimit);
      if pnext.Some? && pnext.value < p {
        return None;
      }
      var value := GetValue(buf, p);
      return if value.None? then None else Some(Member(key, value.value));
    }
  }

  lemma ContainsType(buf: bytes, tag: int, es: seq<Entry>)
    requires Contains(buf, tag, es)
    ensures IsContainerType(tag)
  {
  }

  /** binn_list_foreach, binn_map_foreach and binn_object_foreach: every entry comes, in order. */
  method Foreach(buf: bytes, tag: int, ghost es: seq<Entry>) returns (ms: seq<Member>)
    requires Contains(buf, tag, es)
    ensures EntriesOk(tag, es) && ms == Members(tag, es)
  {
    hide LaidOut, ItemOk, View, KeyOk, Payload, Holds, SavedEntries;
    var iter := new BinnIter(buf);
    var ok := iter.Init(tag);
    ghost var n := 0;
    ms := [];
    while true
      invariant iter.buf == buf && iter.tag == tag && n <= |es| && iter.Ahead(es[n..])
      invariant ms == Members(tag, es)[..n]
      decreases |es| - n
    {
      assert n < |es| ==> es[n..][1..] == es[n + 1..] && es[n..][0] == es[n];
      var m: Option<Member>;
      if tag == LIST {
        var value := iter.ListNext(es[n..]);
        m := if value.None? then None else Some(Member(NoKey, value.value));
        ListKeys(es, n);
      } else {
        m := iter.NextPair(tag, es[n..]);
      }
      if m.None? {
        break;
      }
      ms, n := ms + [m.value], n + 1;
    }
  }

  lemma ListKeys(es: seq<Entry>, n: nat)
    requires EntriesOk(LIST, es) 
    ensures n < |es| ==> es[n].key == NoKey
  {
  }

  // ----- Containers in containers -----

  datatype Doc = Leaf(item: Item) | Node(tag: int, keys: seq<Key>, docs: seq<Doc>)

  ghost predicate DocOk(d: Doc)
    decreases d, 1
  {
    match d
    case Leaf(it) => ItemOk(it) && Storage(it.tag) != CONTAINER
    case Node(tag, ks, ds) =>
      |ks| == |ds| && (forall i :: 0 <= i < |ds| ==> DocOk(ds[i])) && FitsSaved(tag, EntriesOf(ks, ds))
  }

  ghost function EntriesOf(ks: seq<Key>, ds: seq<Doc>): (es: seq<Entry>)
    requires |ks| == |ds| && forall i :: 0 <= i < |ds| ==> DocOk(ds[i])
    decreases ds, 0
  {
    seq(|ds|, i requires 0 <= i < |ds| => Entry(ks[i], ItemOf(ds[i])))
  }

  /** What is added for a document: a container that was saved before. */
  ghost function ItemOf(d: Doc): Item
    requires DocOk(d)
    decreases d, 2
  {
    match d
    case Leaf(it) => it
    case Node(tag, ks, ds) => Item(tag, SavedEntries(tag, EntriesOf(ks, ds)))
  }

  lemma ContainerTag(tag: int)
    requires IsContainerType(tag)
    ensures TypeOk(tag) && Storage(tag) == CONTAINER && Width(CONTAINER) < 0
  {
  }

  /** A saved container is an item that can be added to another. */
  lemma SavedItemOk(tag: int, es: seq<Entry>)
    requires FitsSaved(tag, es)
    ensures ItemOk(Item(tag, SavedEntries(tag, es)))
    ensures View(Item(tag, SavedEntries(tag, es))).tag == tag
    ensures View(Item(tag, SavedEntries(tag, es))).data == SavedEntries(tag, es)
  {
    hide EntriesOk, Payload, Saved, Storage, TypeOk, Width, HeaderAt;
    ContainerTag(tag);
    assert IsSavedAs(tag, SavedEntries(tag, es), |es|, Payload(tag, es));
  }

  lemma PlainTag(it: Item)
    requires ItemOk(it) && Storage(it.tag) != CONTAINER
    ensures !IsContainerType(it.tag)
  {
  }

  lemma ItemOfOk(d: Doc)
    requires DocOk(d)
    ensures ItemOk(ItemOf(d))
    ensures d.Node? <==> IsContainerType(ItemOf(d).tag)
    ensures d.Node? ==> IsContainerType(d.tag) && View(ItemOf(d)).tag == d.tag && View(ItemOf(d)).data == ItemOf(d).data
  {
    hide ItemOk, View, Saved, EntriesOf, SavedEntries, Payload, Storage;
    if d.Node? {
      SavedItemOk(d.tag, EntriesOf(d.keys, d.docs));
    } else {
      PlainTag(d.item);
    }
  }

  /** What a reader makes of a value, going into every container. */
  datatype Tree = Atom(value: Value) | Branch(tag: int, keys: seq<Key>, trees: seq<Tree>)

  ghost function TreeOf(d: Doc): Tree
    requires DocOk(d)
  {
    match d
    case Leaf(it) => Atom(View(it))
    case Node(tag, ks, ds) => Branch(tag, ks, seq(|ds|, i requires 0 <= i < |ds| => TreeOf(ds[i])))
  }

  lemma ViewPlain(it: Item)
    requires ItemOk(it) && Storage(it.tag) != CONTAINER
    ensures !IsContainerType(View(it).tag)
  {
  }

  lemma NodeContains(d: Doc)
    requires DocOk(d) && d.Node?
    ensures Contains(ItemOf(d).data, d.tag, EntriesOf(d.keys, d.docs))
  {
  }

  lemma MemberIs(d: Doc, i: nat)
    requires DocOk(d) && d.Node? && i < |d.docs|
    ensures var es := EntriesOf(d.keys, d.docs);
            EntriesOk(d.tag, es) && |es| == |d.docs| && DocOk(d.docs[i]) && ItemOk(ItemOf(d.docs[i])) &&
            Members(d.tag, es)[i] == Member(d.keys[i], View(ItemOf(d.docs[i])))
  {
    ItemOfOk(d.docs[i]);
  }

  /** Containers nested to any depth are read back as they were put together. */
  method ReadTree(v: Value, ghost d: Doc) returns (t: Tree)
    requires DocOk(d) && ItemOk(ItemOf(d)) && v == View(ItemOf(d))
    ensures t == TreeOf(d)
    decreases d
  {
    hide ItemOk, View, EntriesOf, Members, Contains, FitsSaved, ItemOf;
    ItemOfOk(d);
    if !IsContainerType(v.tag) {
      LeafIs(d);
      return Atom(v);
    }
    NodeIs(d);
    NodeContains(d);
    ghost var es := EntriesOf(d.keys, d.docs);
    var ms := Foreach(v.data, v.tag, es);
    var keys: seq<Key>, trees: seq<Tree> := [], [];
    MembersLength(d.tag, es);
    EntriesLength(d);
    for i := 0 to |ms|
      invariant keys == d.keys[..i] && |trees| == i
      invariant forall j :: 0 <= j < i ==> DocOk(d.docs[j]) && trees[j] == TreeOf(d.docs[j])
    {
      MemberIs(d, i);
      var tree := ReadTree(ms[i].value, d.docs[i]);
      keys, trees := keys + [ms[i].key], trees + [tree];
    }
    return Branch(v.tag, keys, trees);
  }

  lemma LeafIs(d: Doc)
    requires DocOk(d) && ItemOk(ItemOf(d)) && !IsContainerType(View(ItemOf(d)).tag)
    ensures d.Leaf? && TreeOf(d) == Atom(View(ItemOf(d)))
  {
    ItemOfOk(d);
  }

  lemma NodeIs(d: Doc)
    requires DocOk(d) && ItemOk(ItemOf(d)) && IsContainerType(View(ItemOf(d)).tag)
    ensures d.Node?
  {
    if d.Leaf? {
      ViewPlain(d.item);
    }
  }

  lemma MembersLength(tag: int, es: seq<Entry>)
    requires EntriesOk(tag, es)
    ensures |Members(tag, es)| == |es|
  {
  }

  lemma EntriesLength(d: Doc)
    requires DocOk(d) && d.Node?
    ensures |d.keys| == |d.docs| == |EntriesOf(d.keys, d.docs)|
  {
  }
}
