/** The writing side of binn (third-parties/binn/src/binn.c): a buffer that grows behind nine bytes kept for the
    header, which is saved right in front of the entries.  Sizes stay within MAX_ALLOC, so that no C integer
    overflows; whether realloc grants a size is a parameter. */
module BinnWriter {
  import opened Bytes
  import opened BinnFormat
  import opened BinnEntries
  import opened BinnInts
  import opened BinnReader
  import opened BinnStored

  const CHUNK_SIZE := 256
  const MAX_ALLOC: int := 0x4000_0000

  // ----- Allocation -----

  /** The first size of the doublings of alloc that is at least needed. */
  function Doubled(needed: int, alloc: nat): (r: int)
    requires 0 < alloc
    decreases needed - alloc
  {
    if alloc < needed then Doubled(needed, 2 * alloc) else alloc
  }

  lemma {:induction false} DoubledIs(needed: int, alloc: nat)
    requires 0 < alloc
    ensures needed <= Doubled(needed, alloc) && alloc <= Doubled(needed, alloc)
    ensures alloc < needed ==> Doubled(needed, alloc) < 2 * needed
    decreases needed - alloc
  {
    if alloc < needed {
      DoubledIs(needed, 2 * alloc);
    }
  }

  method CalcAllocation(neededSize: int, allocSize: nat) returns (calcSize: int)
    requires 0 < allocSize
    ensures calcSize == Doubled(neededSize, allocSize)
  {
    calcSize := allocSize;
    while calcSize < neededSize
      invariant 0 < calcSize && Doubled(neededSize, calcSize) == Doubled(neededSize, allocSize)
      decreases neededSize - calcSize
    {
      calcSize := 2 * calcSize;
    }
  }

  /** The allocation after CheckAllocation; None if there is no room. */
  function Room(alloc: nat, preAllocated: bool, used: nat, add: nat, grant: int -> bool): Option<nat>
    requires 0 < alloc
  {
    if used + add <= alloc then Some(alloc)
    else if preAllocated then None
    else
      DoubledIs(used + add, alloc);
      var a := Doubled(used + add, alloc);
      if grant(a) then Some(a) else None
  }

  /** There is room, or it is asked for, but never for twice what is needed; a buffer of the caller stays. */
  ghost predicate Grown(before: nat, after: nat, preAllocated: bool, needed: nat, grant: int -> bool, ok: bool)
  {
    if needed <= before then ok && after == before
    else if preAllocated then !ok && after == before
    else
      exists asked: nat ::
        needed <= asked < 2 * needed && ok == grant(asked) && after == if ok then asked else before
  }

  // ----- What AddValue is asked -----

  /** AddValue does what it is asked. */
  predicate Accepts(it: Option<Item>, alloc: nat, preAllocated: bool, used: nat, grant: int -> bool)
  {
    it.Some? && alloc > 0 && Room(alloc, preAllocated, used, Needed(it.value), grant).Some?
  }

  /** There is room for a key, and then for the value. */
  predicate AcceptsEntry(key: nat, it: Option<Item>, alloc: nat, preAllocated: bool, used: nat, grant: int -> bool)
  {
    alloc > 0 &&
    var r := Room(alloc, preAllocated, used, key, grant);
    r.Some? && Accepts(it, r.value, preAllocated, used + key, grant)
  }

  lemma AcceptsSome(it: Option<Item>, alloc: nat, preAllocated: bool, used: nat, grant: int -> bool)
    ensures Accepts(it, alloc, preAllocated, used, grant) ==> it.Some?
  {
  }

  lemma FoundNone(buf: bytes, es: seq<Entry>, i: Option<nat>, r: Option<int>)
    requires Found(buf, es, i, r)
    ensures i.None? <==> r.None?
  {
  }

  /** What lies at p is read as the value that was added. */
  ghost predicate ReadBack(buf: bytes, p: nat, a: Addition, compress: bool)
  {
    var v := GetValue(buf, p);
    v.Some? && Comes(a, compress, v.value)
  }

  /** The last entry has this key, and what was added is read back from it. */
  ghost predicate Added(es: seq<Entry>, key: Key, a: Addition, compress: bool)
  {
    es != [] && var e := es[|es| - 1]; e.key == key && ItemOk(e.item) && Comes(a, compress, View(e.item))
  }

  lemma IsAdded(es: seq<Entry>, key: Key, a: Addition, compress: bool)
    requires MemoryOk(a.tag, a.mem, a.size) && Stored(a.tag, a.mem, a.size, compress).Some?
    ensures Added(es + [Entry(key, Stored(a.tag, a.mem, a.size, compress).value)], key, a, compress)
  {
    hide Stored, ItemOk, View, Comes;
    StoredComes(a, compress);
  }

  lemma IsReadBack(a: Addition, compress: bool, front: bytes)
    requires MemoryOk(a.tag, a.mem, a.size) && Stored(a.tag, a.mem, a.size, compress).Some?
    ensures var it := Stored(a.tag, a.mem, a.size, compress).value;
            ItemOk(it) && ReadBack(front + Encode(it), |front|, a, compress)
  {
    hide Stored, ItemOk, Encode, GetValue, View, Comes;
    StoredComes(a, compress);
    GetOver(front + Encode(Stored(a.tag, a.mem, a.size, compress).value), |front|,
            Stored(a.tag, a.mem, a.size, compress).value);
  }

  /** What is stored behind the type. */
  function BodyBytes(storage: int, data: bytes): bytes
    requires |data| < TWO31
  {
    if storage == BLOB then WriteBE32(|data|) + data
    else if storage == STRING then LenBytes(|data|) + data + [0]
    else data
  }

  lemma EncodeSplits(it: Item)
    requires ItemOk(it)
    ensures TypeOk(it.tag) && |it.data| < TWO31
    ensures Encode(it) == (if Storage(it.tag) == CONTAINER then [] else TypeBytes(it.tag)) +
        BodyBytes(Storage(it.tag), it.data)
  {
    hide LenBytes, WriteBE32, TypeBytes, Encode;
    EncodeIs(it);
    StorageKinds(it.tag);
  }

  /** An allocation that is enough, and small enough for C. */
  predicate Sized(used: int, alloc: int) { MAX_BINN_HEADER <= used <= alloc < TWO31 }

  lemma RoomIs(alloc: nat, preAllocated: bool, used: nat, add: nat, grant: int -> bool)
    requires Sized(used, alloc) && used + add <= MAX_ALLOC
    ensures var r := Room(alloc, preAllocated, used, add, grant);
            r.Some? ==> used + add <= r.value && alloc <= r.value && Sized(used + add, r.value)
  {
    DoubledIs(used + add, alloc);
  }

  /** The buffer up to the end of the entries. */
  ghost predicate Holding(front: bytes, tag: int, es: seq<Entry>)
  {
    EntriesOk(tag, es) && |front| >= MAX_BINN_HEADER && front[MAX_BINN_HEADER..] == Payload(tag, es) && |es| <= |front|
  }

  /** One more entry. */
  lemma HoldingMore(front: bytes, tag: int, es: seq<Entry>, e: Entry)
    requires Holding(front, tag, es) && EntryOk(tag, e)
    ensures Holding(front + KeyBytes(e.key) + Encode(e.item), tag, es + [e])
  {
    hide KeyBytes, Encode, ItemOk, Payload;
    PayloadMore(tag, es, e);
    EncodeSome(e.item);
    assert (front + KeyBytes(e.key) + Encode(e.item))[9..] == front[9..] + (KeyBytes(e.key) + Encode(e.item));
  }

  lemma HoldingIs(front: bytes, tag: int, es: seq<Entry>)
    requires Holding(front, tag, es) && |front| <= MAX_ALLOC && IsContainerType(tag)
    ensures EntriesOk(tag, es) && |front| >= MAX_BINN_HEADER && front[MAX_BINN_HEADER..] == Payload(tag, es)
    ensures |es| <= |front| && FitsSaved(tag, es)
  {
  }

  /** A header in front of the entries makes a saved container. */
  lemma SavedFront(buf: bytes, p: nat, used: nat, tag: byte, es: seq<Entry>, rest: bytes)
    requires FitsSaved(tag as int, es) && p <= MAX_BINN_HEADER <= used <= |buf|
    requires |rest| == |buf| - MAX_BINN_HEADER && rest[..used - MAX_BINN_HEADER] == Payload(tag as int, es)
    requires buf[p..] == HeaderBytes(tag, |es|, SavedSize(|es|, |Payload(tag as int, es)|)) + rest
    ensures buf[p..used] == SavedEntries(tag as int, es) && |SavedEntries(tag as int, es)| == used - p
    ensures |es| <= used ==> Holding(buf[..used], tag as int, es)
  {
    hide HeaderBytes, Payload, EntriesOk;
    var h := HeaderBytes(tag, |es|, SavedSize(|es|, |Payload(tag as int, es)|));
    Justified(buf, p, used, h, rest);
  }

  lemma HeaderJoins(tag: byte, count: nat, size: nat, rest: bytes)
    requires count < TWO31 && size < TWO31
    ensures [tag] + (LenBytes(size) + (LenBytes(count) + rest)) == HeaderBytes(tag, count, size) + rest
  {
    hide LenBytes;
  }

  lemma Justified(buf: bytes, p: nat, used: nat, h: bytes, rest: bytes)
    requires p <= MAX_BINN_HEADER <= used <= |buf| && |rest| == |buf| - MAX_BINN_HEADER && buf[p..] == h + rest
    ensures buf[p..used] == h + rest[..used - MAX_BINN_HEADER]
    ensures buf[..used][MAX_BINN_HEADER..] == rest[..used - MAX_BINN_HEADER]
  {
    assert |buf[p..]| == |h| + |rest| && p + |h| == MAX_BINN_HEADER;
    assert buf[p..used] == (h + rest)[..used - p];
    forall i | MAX_BINN_HEADER <= i < used ensures buf[i] == rest[i - MAX_BINN_HEADER] {
      assert buf[p..][i - p] == (h + rest)[i - p];
    }
  }

  lemma HoldingLaidOut(front: bytes, tag: int, es: seq<Entry>)
    requires Holding(front, tag, es)
    ensures LaidOut(front, MAX_BINN_HEADER, tag, es, |front|)
  {
  }

  class Binn {
    var pbuf: array<byte>              // alloc_size is its length
    const preAllocated: bool
    const disableIntCompression: bool
    const tag: byte                    // type
    var usedSize: nat
    var count: nat
    var dirty: bool
    var ptr: nat                       // where the saved container begins in pbuf
    var size: int

    ghost var entries: seq<Entry>

    /** The buffer up to the end of the entries. */
    ghost function Front(): bytes
      reads this, pbuf
      requires Sized(usedSize, pbuf.Length)
    {
      pbuf[..usedSize]
    }

    ghost predicate Valid()
      reads this, pbuf
    {
      && Sized(usedSize, pbuf.Length) && IsContainerType(tag)
      && count == |entries| && Holding(Front(), tag, entries)
    }

    /** What binn_ptr leads to once the header is saved. */
    ghost predicate IsSavedHere()
      reads this, pbuf
    {
      && ptr <= usedSize <= pbuf.Length && FitsSaved(tag, entries)
      && pbuf[ptr..usedSize] == SavedEntries(tag, entries) && size == usedSize - ptr
    }

    /** binn_create without a buffer, or with one of at least nine bytes. */
    constructor (tag: byte, size: nat, buffer: Option<array<byte>>, disableIntCompression: bool)
      requires IsContainerType(tag) && size < TWO31
      requires if buffer.Some? then MAX_BINN_HEADER <= size == buffer.value.Length
               else size < MIN_BINN_SIZE || MAX_BINN_HEADER <= size
      ensures Valid() && entries == [] && this.tag == tag && dirty && usedSize == MAX_BINN_HEADER
      ensures preAllocated == buffer.Some? && this.disableIntCompression == disableIntCompression
      ensures if buffer.Some? then pbuf == buffer.value else fresh(pbuf)
    {
      this.tag := tag;
      this.disableIntCompression := disableIntCompression;
      preAllocated := buffer.Some?;
      if buffer.Some? {
        pbuf := buffer.value;
      } else {
        pbuf := new byte[CreatedAlloc(size)];
      }
      usedSize := MAX_BINN_HEADER;
      count, dirty, ptr, this.size := 0, true, 0, 0;
      entries := [];
    }

    /** CheckAllocation */
    method CheckAllocation(addSize: nat, grant: int -> bool) returns (ok: bool)
      requires Sized(usedSize, pbuf.Length) && usedSize + addSize <= MAX_ALLOC
      modifies this`pbuf
      ensures pbuf == old(pbuf) || fresh(pbuf)
      ensures var r := Room(old(pbuf.Length), preAllocated, usedSize, addSize, grant);
              ok == r.Some? && pbuf.Length == (if ok then r.value else old(pbuf.Length))
      ensures Sized(usedSize, pbuf.Length) && pbuf[..usedSize] == old(pbuf[..usedSize])
      ensures ok ==> usedSize + addSize <= pbuf.Length
      ensures Grown(old(pbuf.Length), pbuf.Length, preAllocated, usedSize + addSize, grant, ok)
    {
      DoubledIs(usedSize + addSize, pbuf.Length);
      RoomIs(pbuf.Length, preAllocated, usedSize, addSize, grant);
      if usedSize + addSize > pbuf.Length {
        if preAllocated {
          return false;
        }
        var allocSize := CalcAllocation(usedSize + addSize, pbuf.Length);
        if !grant(allocSize) {
          return false;
        }
        var bigger := new byte[allocSize];
        var i := 0;
        while i < pbuf.Length
          invariant 0 <= i <= pbuf.Length <= bigger.Length && fresh(bigger) && pbuf == old(pbuf)
          invariant bigger[..i] == pbuf[..i]
        {
          bigger[i] := pbuf[i];
          i := i + 1;
        }
        assert bigger[..usedSize] == bigger[..i][..usedSize];
        pbuf := bigger;
      }
      return true;
    }

    /** memcpy of b to the next place in the buffer. */
    method Append(b: bytes)
      requires Sized(usedSize, pbuf.Length) && usedSize + |b| <= pbuf.Length
      modifies this`usedSize, pbuf
      ensures usedSize == old(usedSize) + |b| && Sized(usedSize, pbuf.Length)
      ensures pbuf[..usedSize] == old(pbuf[..usedSize]) + b
    {
      ghost var before := pbuf[..usedSize];
      var i := 0;
      while i < |b|
        invariant 0 <= i <= |b| && pbuf[..usedSize + i] == before + b[..i]
        modifies pbuf
      {
        pbuf[usedSize + i] := b[i];
        assert pbuf[..usedSize + i + 1] == pbuf[..usedSize + i] + [b[i]];
        i := i + 1;
      }
      usedSize := usedSize + |b|;
    }

    /** The body of an item behind its type: the second switch of AddValue. */
    method AppendBody(storage: int, data: bytes)
      requires Sized(usedSize, pbuf.Length) && |data| < TWO31
      requires usedSize + |BodyBytes(storage, data)| <= pbuf.Length
      modifies this`usedSize, pbuf
      ensures usedSize == old(usedSize) + |BodyBytes(storage, data)| && Sized(usedSize, pbuf.Length)
      ensures pbuf[..usedSize] == old(pbuf[..usedSize]) + BodyBytes(storage, data)
    {
      hide LenBytes, WriteBE32;
      if storage == BLOB {
        Append(WriteBE32(|data|));
      } else if storage == STRING {
        Append(LenBytes(|data|));
      }
      Append(data);
      if storage == STRING {
        Append([0]);
      }
    }

    /** AddValue once it is known what is to be stored. */
    method AddItem(it: Item, grant: int -> bool) returns (ok: bool)
      requires Sized(usedSize, pbuf.Length) && ItemOk(it) && usedSize + Needed(it) <= MAX_ALLOC
      modifies this`pbuf, this`usedSize, this`dirty, pbuf
      ensures (pbuf == old(pbuf) || fresh(pbuf)) && Sized(usedSize, pbuf.Length)
      ensures ok == Accepts(Some(it), old(pbuf.Length), preAllocated, old(usedSize), grant)
      ensures ok ==> dirty && usedSize == old(usedSize) + |Encode(it)|
      ensures ok ==> usedSize <= old(usedSize) + Needed(it)
      ensures ok ==> pbuf[..usedSize] == old(pbuf[..usedSize]) + Encode(it)
      ensures !ok ==> usedSize == old(usedSize) && dirty == old(dirty) && pbuf[..usedSize] == old(pbuf[..usedSize])
    {
      hide ItemOk, Encode, Needed, BodyBytes, Room, TypeOk, Grown, Storage;
      NeededIs(it);
      EncodeSplits(it);
      ok := CheckAllocation(Needed(it), grant);
      if !ok {
        return;
      }
      if Storage(it.tag) != CONTAINER {
        Append(TypeBytes(it.tag));
      }
      AppendBody(Storage(it.tag), it.data);
      dirty := true;
    }

    /** AddValue: the value of this type in memory goes behind what is there. */
    method AddValue(tag: int, mem: Option<bytes>, size: int, grant: int -> bool) returns (ok: bool)
      requires Sized(usedSize, pbuf.Length) && MemoryOk(tag, mem, size)
      requires var it := Stored(tag, mem, size, !disableIntCompression);
               it.Some? ==> usedSize + Needed(it.value) <= MAX_ALLOC
      modifies this`pbuf, this`usedSize, this`dirty, pbuf
      ensures (pbuf == old(pbuf) || fresh(pbuf)) && Sized(usedSize, pbuf.Length)
      ensures ok == Accepts(Stored(tag, mem, size, !disableIntCompression), old(pbuf.Length), preAllocated,
          old(usedSize), grant)
      ensures ok ==>
                var it := Stored(tag, mem, size, !disableIntCompression).value;
                && ItemOk(it) && dirty && usedSize == old(usedSize) + |Encode(it)|
                && pbuf[..usedSize] == old(pbuf[..usedSize]) + Encode(it)
      ensures ok ==> usedSize <= old(usedSize) + Needed(Stored(tag, mem, size, !disableIntCompression).value)
      ensures ok ==> ReadBack(pbuf[..usedSize], old(usedSize), Addition(tag, mem, size), !disableIntCompression)
      ensures Refuses(Addition(tag, mem, size)) ==> !ok
      ensures !ok ==> usedSize == old(usedSize) && dirty == old(dirty) && pbuf[..usedSize] == old(pbuf[..usedSize])
    {
      ghost var a, compress := Addition(tag, mem, size), !disableIntCompression;
      RefusesIs(a, compress);
      var it := Stored(tag, mem, size, !disableIntCompression);
      if it.None? {
        return false;
      }
      StoredOk(tag, mem, size, compress);
      IsReadBack(a, compress, pbuf[..usedSize]);
      hide *;
      ok := AddItem(it.value, grant);
    }

    /** binn_list_add_raw */
    method ListAddRaw(tag: int, mem: Option<bytes>, size: int, grant: int -> bool) returns (ok: bool)
      requires Valid() && MemoryOk(tag, mem, size)
      requires var it := Stored(tag, mem, size, !disableIntCompression);
               it.Some? ==> usedSize + Needed(it.value) <= MAX_ALLOC
      modifies this, pbuf
      ensures Valid() && (pbuf == old(pbuf) || fresh(pbuf))
      ensures var it := Stored(tag, mem, size, !disableIntCompression);
              && ok == (this.tag == LIST && Accepts(it, old(pbuf.Length), preAllocated, old(usedSize), grant))
              && entries == if ok then old(entries) + [Entry(NoKey, it.value)] else old(entries)
      ensures ok ==> Added(entries, NoKey, Addition(tag, mem, size), !disableIntCompression)
      ensures ok ==> dirty && usedSize <= old(usedSize) + Needed(Stored(tag, mem, size, !disableIntCompression).value)
      ensures !ok ==> usedSize == old(usedSize) && Front() == old(Front()) && dirty == old(dirty)
    {
      hide ItemOk, Stored, Encode, Needed, MemoryOk, Accepts, Holding, ReadBack, Refuses, Added;
      if this.tag != LIST {
        return false;
      }
      ghost var front := Front();
      ok := AddValue(tag, mem, size, grant);
      AcceptsSome(Stored(tag, mem, size, !disableIntCompression), old(pbuf.Length), preAllocated, |front|, grant);
      if ok {
        ghost var e := Entry(NoKey, Stored(tag, mem, size, !disableIntCompression).value);
        HoldingMore(front, LIST, entries, e);
        assert KeyBytes(NoKey) == [];
        assert front + [] + Encode(e.item) == Front();
        IsAdded(entries, NoKey, Addition(tag, mem, size), !disableIntCompression);
        count := count + 1;
        entries := entries + [e];
      }
    }

    /** The part of binn_object_set_raw and binn_map_set_raw that adds the entry of a key that is not there. */
    method AddEntry(ghost key: Key, keyBytes: bytes, tag: int, mem: Option<bytes>, size: int, grant: int -> bool)
      returns (ok: bool)
      requires Valid() && MemoryOk(tag, mem, size) && KeyOk(this.tag as int, key) && keyBytes == KeyBytes(key)
      requires usedSize + |keyBytes| <= MAX_ALLOC
      requires var it := Stored(tag, mem, size, !disableIntCompression);
               it.Some? ==> usedSize + |keyBytes| + Needed(it.value) <= MAX_ALLOC
      modifies this, pbuf
      ensures Valid() && (pbuf == old(pbuf) || fresh(pbuf))
      ensures var it := Stored(tag, mem, size, !disableIntCompression);
              && ok == AcceptsEntry(|keyBytes|, it, old(pbuf.Length), preAllocated, old(usedSize), grant)
              && entries == if ok then old(entries) + [Entry(key, it.value)] else old(entries)
      ensures ok ==> Added(entries, key, Addition(tag, mem, size), !disableIntCompression)
      ensures ok ==> dirty
      ensures ok ==>
                usedSize <= old(usedSize) + |keyBytes| + Needed(Stored(tag, mem, size, !disableIntCompression).value)
      ensures !ok ==> usedSize == old(usedSize) && Front() == old(Front()) && dirty == old(dirty)
    {
      hide ItemOk, Stored, Encode, Needed, MemoryOk, Accepts, Holding, KeyOk, KeyBytes, Room, ReadBack, Refuses, Added,
          Grown;
      ghost var front := Front();
      ok := CheckAllocation(|keyBytes|, grant);
      if !ok {
        return;
      }
      Append(keyBytes);
      AcceptsSome(Stored(tag, mem, size, !disableIntCompression), pbuf.Length, preAllocated, usedSize, grant);
      ok := AddValue(tag, mem, size, grant);
      if ok {
        ghost var e := Entry(key, Stored(tag, mem, size, !disableIntCompression).value);
        HoldingMore(front, this.tag as int, entries, e);
        IsAdded(entries, key, Addition(tag, mem, size), !disableIntCompression);
        count := count + 1;
        entries := entries + [e];
      } else {
        usedSize := usedSize - |keyBytes|;
        assert Front() == pbuf[..old(usedSize) + |keyBytes|][..old(usedSize)];
      }
    }

    /** binn_object_set_raw: the key is new, valid, and there is room. */
    method ObjectSetRaw(key: Option<bytes>, tag: int, mem: Option<bytes>, size: int, grant: int -> bool)
      returns (ok: bool)
      requires Valid() && MemoryOk(tag, mem, size) && (key.Some? ==> 0 !in key.value)
      requires usedSize + 256 <= MAX_ALLOC
      requires var it := Stored(tag, mem, size, !disableIntCompression);
               it.Some? ==> usedSize + 256 + Needed(it.value) <= MAX_ALLOC
      modifies this, pbuf
      ensures Valid() && (pbuf == old(pbuf) || fresh(pbuf))
      ensures var it := Stored(tag, mem, size, !disableIntCompression);
              && ok == (this.tag == OBJECT && key.Some? && |key.value| <= 255
                        && (forall i :: 0 <= i < |old(entries)| ==> !SameKey(old(entries)[i].key, Name(key.value)))
                        && AcceptsEntry(1 + |key.value|, it, old(pbuf.Length), preAllocated, old(usedSize), grant))
              && entries == if ok then old(entries) + [Entry(Name(key.value), it.value)] else old(entries)
      ensures ok ==> Added(entries, Name(key.value), Addition(tag, mem, size), !disableIntCompression)
      ensures ok ==> dirty
      ensures ok ==>
                usedSize <= old(usedSize) + 256 + Needed(Stored(tag, mem, size, !disableIntCompression).value)
      ensures !ok ==> usedSize == old(usedSize) && Front() == old(Front()) && dirty == old(dirty)
    {
      hide ItemOk, Stored, Needed, MemoryOk, Holding, AcceptsEntry, FindKey, Lookup, Found, SameKey, LaidOut, Added;
      if this.tag != OBJECT || key.None? || |key.value| > 255 {
        return false;
      }
      HoldingLaidOut(Front(), OBJECT, entries);
      FindKeyIs(Front(), MAX_BINN_HEADER, entries, usedSize, key.value);
      FoundNone(Front(), entries, Lookup(entries, Name(key.value)),
                FindKey(Front(), MAX_BINN_HEADER, usedSize - 1, count, key.value));
      LookupFinds(entries, Name(key.value));
      var p := SearchForKey(pbuf[..usedSize], MAX_BINN_HEADER, usedSize, count, key.value);
      if p.Some? {
        return false;
      }
      var len: byte := |key.value|;
      ok := AddEntry(Name(key.value), [len] + key.value, tag, mem, size, grant);
    }

    /** binn_map_set_raw */
    method MapSetRaw(id: int, tag: int, mem: Option<bytes>, size: int, grant: int -> bool) returns (ok: bool)
      requires Valid() && MemoryOk(tag, mem, size) && -TWO31 <= id < TWO31
      requires usedSize + 4 <= MAX_ALLOC
      requires var it := Stored(tag, mem, size, !disableIntCompression);
               it.Some? ==> usedSize + 4 + Needed(it.value) <= MAX_ALLOC
      modifies this, pbuf
      ensures Valid() && (pbuf == old(pbuf) || fresh(pbuf))
      ensures var it := Stored(tag, mem, size, !disableIntCompression);
              && ok == (this.tag == MAP
                        && (forall i :: 0 <= i < |old(entries)| ==> !SameKey(old(entries)[i].key, Id(id)))
                        && AcceptsEntry(4, it, old(pbuf.Length), preAllocated, old(usedSize), grant))
              && entries == if ok then old(entries) + [Entry(Id(id), it.value)] else old(entries)
      ensures ok ==> Added(entries, Id(id), Addition(tag, mem, size), !disableIntCompression)
      ensures ok ==> dirty
      ensures ok ==>
                usedSize <= old(usedSize) + 4 + Needed(Stored(tag, mem, size, !disableIntCompression).value)
      ensures !ok ==> usedSize == old(usedSize) && Front() == old(Front()) && dirty == old(dirty)
    {
      hide ItemOk, Stored, Needed, MemoryOk, Holding, AcceptsEntry, FindId, Lookup, Found, SameKey, LaidOut, Added;
      if this.tag != MAP {
        return false;
      }
      HoldingLaidOut(Front(), MAP, entries);
      FindIdIs(Front(), MAX_BINN_HEADER, entries, usedSize, id);
      FoundNone(Front(), entries, Lookup(entries, Id(id)),
                FindId(Front(), MAX_BINN_HEADER, usedSize - 1, count, id));
      LookupFinds(entries, Id(id));
      var p := SearchForID(pbuf[..usedSize], MAX_BINN_HEADER, usedSize, count, id);
      if p.Some? {
        return false;
      }
      ok := AddEntry(Id(id), WriteBE32(if id < 0 then id + TWO32 else id), tag, mem, size, grant);
    }

    /** Bytes written over those at a place in the room for the header. */
    method WriteAt(at: nat, b: bytes)
      requires at + |b| <= MAX_BINN_HEADER <= pbuf.Length
      modifies pbuf
      ensures pbuf[at..] == b + old(pbuf[at + |b|..]) && pbuf[..at] == old(pbuf[..at])
    {
      var i := 0;
      while i < |b|
        invariant 0 <= i <= |b| && pbuf[..at] == old(pbuf[..at])
        invariant forall k :: 0 <= k < i ==> pbuf[at + k] == b[k]
        invariant pbuf[at + |b|..] == old(pbuf[at + |b|..])
      {
        pbuf[at + i] := b[i];
        i := i + 1;
      }
      assert pbuf[at..at + |b|] == b;
      assert pbuf[at..] == pbuf[at..at + |b|] + pbuf[at + |b|..];
    }

    /** A length in one or four bytes, written to end at p. */
    method WriteLen(p: nat, n: nat) returns (p': nat)
      requires n < TWO31 && LenWidth(n) <= p <= MAX_BINN_HEADER <= pbuf.Length
      modifies pbuf
      ensures p' == p - LenWidth(n)
      ensures pbuf[p'..] == LenBytes(n) + old(pbuf[p..])
    {
      if n > 127 {
        p' := p - 4;
        WriteAt(p', WriteBE32(n + TWO31));
      } else {
        p' := p - 1;
        WriteAt(p', [n]);
      }
    }

    /** The header, written right-justified: count, then size, then type. */
    method WriteHeader() returns (p: nat, size: nat)
      requires Sized(usedSize, pbuf.Length) && usedSize <= MAX_ALLOC && count < TWO31
      modifies pbuf
      ensures size == SavedSize(count, usedSize - MAX_BINN_HEADER) < TWO31
      ensures p <= MAX_BINN_HEADER && pbuf[p..] == HeaderBytes(tag, count, size) + old(pbuf[MAX_BINN_HEADER..])
    {
      hide LenBytes, HeaderBytes;
      size := usedSize - MAX_BINN_HEADER + 3;
      if count > 127 {
        size := size + 3;
      }
      p := WriteLen(MAX_BINN_HEADER, count);
      if size > 127 {
        size := size + 3;
      }
      p := WriteLen(p, size);
      ghost var behind := pbuf[p..];
      p := p - 1;
      WriteAt(p, [tag]);
      assert pbuf[p..] == [tag] + behind;
      HeaderJoins(tag, count, size, old(pbuf[MAX_BINN_HEADER..]));
    }

    /** binn_save_header: the header is written right in front of the entries. */
    method SaveHeader()
      requires Valid() && usedSize <= MAX_ALLOC
      modifies this`ptr, this`size, this`dirty, pbuf
      ensures Valid() && IsSavedHere() && !dirty
    {
      hide Holding, LenBytes, HeaderBytes, Payload, EntriesOk, Saved, SavedSize;
      HoldingIs(Front(), tag as int, entries);
      ghost var rest := pbuf[MAX_BINN_HEADER..];
      assert rest[..usedSize - MAX_BINN_HEADER] == Front()[MAX_BINN_HEADER..];
      ptr, size := WriteHeader();
      dirty := false;
      SavedFront(pbuf[..], ptr, usedSize, tag, entries, rest);
    }
  }

  /** What was saved is what the reading functions find. */
  lemma SavedReads(b: Binn)
    requires b.IsSavedHere()
    ensures Contains(b.pbuf[b.ptr..b.usedSize], b.tag as int, b.entries)
    ensures |b.pbuf[b.ptr..b.usedSize]| == b.size == |SavedEntries(b.tag as int, b.entries)|
  {
    hide SavedEntries, FitsSaved;
  }

  /** binn_create asks for at least three bytes, but keeps nine for the header. */
  function CreatedAlloc(size: nat): nat { if size < MIN_BINN_SIZE then CHUNK_SIZE else size }

  /** Where in the buffer binn_save_header writes the header of an empty container. */
  function HeaderPlaces(tag: byte): seq<int>
  {
    var n := |HeaderBytes(tag, 0, SavedSize(0, 0))|;
    seq(n, k => MAX_BINN_HEADER - n + k)
  }

  predicate HeaderFits(tag: byte, alloc: nat)
  {
    var places := HeaderPlaces(tag);
    forall k :: 0 <= k < |places| ==> 0 <= places[k] < alloc
  }

  /** With a buffer of three to eight bytes, and with no other, saving an empty container writes behind it. */
  lemma SmallBuffersOverflow(tag: byte, size: nat)
    ensures HeaderFits(tag, CreatedAlloc(size)) <==> size < MIN_BINN_SIZE || size >= MAX_BINN_HEADER
  {
    assert |HeaderBytes(tag, 0, SavedSize(0, 0))| == 3;
    assert HeaderPlaces(tag)[|HeaderPlaces(tag)| - 1] == MAX_BINN_HEADER - 1;
  }

  // ----- A list from end to end -----

  function Kept(a: Addition, compress: bool): Option<Item> { Stored(a.tag, a.mem, a.size, compress) }

  ghost predicate Additions(xs: seq<Addition>, compress: bool)
  {
    forall i :: 0 <= i < |xs| ==> MemoryOk(xs[i].tag, xs[i].mem, xs[i].size) && Kept(xs[i], compress).Some?
  }

  /** The room for all of them. */
  function NeededFor(xs: seq<Addition>, compress: bool): nat
  {
    if xs == [] then 0
    else
      var it := Kept(xs[|xs| - 1], compress);
      NeededFor(xs[..|xs| - 1], compress) + (if it.Some? then Needed(it.value) else 0)
  }

  lemma {:induction false} NeededPrefix(xs: seq<Addition>, compress: bool, n: nat)
    requires n <= |xs|
    ensures NeededFor(xs[..n], compress) <= NeededFor(xs, compress)
  {
    if n < |xs| {
      NeededPrefix(xs[..|xs| - 1], compress, n);
      assert xs[..|xs| - 1][..n] == xs[..n];
    } else {
      assert xs[..n] == xs;
    }
  }

  lemma NeededNone(xs: seq<Addition>, compress: bool)
    ensures NeededFor(xs[..0], compress) == 0
  {
  }

  lemma NeededNext(xs: seq<Addition>, compress: bool, i: nat)
    requires i < |xs|
    ensures var it := Kept(xs[i], compress);
            NeededFor(xs[..i + 1], compress) ==
            NeededFor(xs[..i], compress) + (if it.Some? then Needed(it.value) else 0)
  {
    hide Needed, Stored;
    assert xs[..i + 1][..i] == xs[..i];
  }

  ghost function EntriesFor(xs: seq<Addition>, compress: bool): (es: seq<Entry>)
    requires Additions(xs, compress)
    ensures |es| == |xs| && forall i :: 0 <= i < |xs| ==> es[i] == Entry(NoKey, Kept(xs[i], compress).value)
  {
    seq(|xs|, i requires 0 <= i < |xs| => Entry(NoKey, Kept(xs[i], compress).value))
  }

  /** A list is filled, saved and iterated: with memory there, every value comes back as it was stored, in order. */
  method ListRoundTrip(xs: seq<Addition>, disableIntCompression: bool, grant: int -> bool) returns (ms: seq<Member>)
    requires Additions(xs, !disableIntCompression) && forall a: int :: grant(a)
    requires MAX_BINN_HEADER + NeededFor(xs, !disableIntCompression) <= MAX_ALLOC
    ensures EntriesOk(LIST, EntriesFor(xs, !disableIntCompression))
    ensures ms == Members(LIST, EntriesFor(xs, !disableIntCompression))
    ensures |ms| == |xs|
    ensures forall i :: 0 <= i < |xs| ==> ms[i].key == NoKey && Comes(xs[i], !disableIntCompression, ms[i].value)
  {
    hide MemoryOk, Stored, Needed, ItemOk, Members, EntriesOk, SavedEntries, Accepts, Holding, Contains, Comes,
        Added, EntriesFor, NeededFor;
    ghost var compress := !disableIntCompression;
    var list := new Binn(LIST, 0, None, disableIntCompression);
    NeededNone(xs, compress);
    for i := 0 to |xs|
      invariant list.Valid() && list.tag == LIST && fresh(list) && fresh(list.pbuf)
      invariant list.entries == EntriesFor(xs, compress)[..i]
      invariant list.usedSize <= MAX_BINN_HEADER + NeededFor(xs[..i], compress)
    {
      NeededPrefix(xs, compress, i + 1);
      NeededNext(xs, compress, i);
      AcceptsAlways(Kept(xs[i], compress), list.pbuf.Length, list.preAllocated, list.usedSize, grant);
      var ok := list.ListAddRaw(xs[i].tag, xs[i].mem, xs[i].size, grant);
    }
    NeededPrefix(xs, compress, |xs|);
    list.SaveHeader();
    SavedReads(list);
    assert list.entries == EntriesFor(xs, compress);
    ms := Foreach(list.pbuf[list.ptr..list.usedSize], LIST, list.entries);
    AllCome(xs, compress);
  }

  lemma AllCome(xs: seq<Addition>, compress: bool)
    requires Additions(xs, compress)
    ensures EntriesOk(LIST, EntriesFor(xs, compress))
    ensures var ms := Members(LIST, EntriesFor(xs, compress));
            |ms| == |xs| && forall i :: 0 <= i < |xs| ==> ms[i].key == NoKey && Comes(xs[i], compress, ms[i].value)
  {
    hide MemoryOk, Stored, ItemOk, View, Comes;
    var es := EntriesFor(xs, compress);
    forall i | 0 <= i < |xs| ensures EntryOk(LIST, es[i]) && Comes(xs[i], compress, View(es[i].item)) {
      StoredComes(xs[i], compress);
    }
  }

  lemma AcceptsAlways(it: Option<Item>, alloc: nat, preAllocated: bool, used: nat, grant: int -> bool)
    requires it.Some? && alloc > 0 && !preAllocated && forall a: int :: grant(a)
    ensures Accepts(it, alloc, preAllocated, used, grant)
  {
  }

  // ----- Objects and maps from end to end -----

  lemma AcceptsEntryAlways(key: nat, it: Option<Item>, alloc: nat, preAllocated: bool, used: nat, grant: int -> bool)
    requires it.Some? && alloc > 0 && !preAllocated && forall a: int :: grant(a)
    ensures AcceptsEntry(key, it, alloc, preAllocated, used, grant)
  {
    DoubledIs(used + key, alloc);
    hide Doubled;
  }

  /** What is held for a key when these were set one after the other: the first value that was set. */
  ghost function FirstSet(keys: seq<Key>, xs: seq<Addition>, compress: bool, key: Key): Option<Value>
    requires |keys| == |xs| && Additions(xs, compress)
  {
    if xs == [] then None
    else
      var n := |xs| - 1;
      AdditionsAt(xs, compress, n);
      var before := FirstSet(keys[..n], xs[..n], compress, key);
      if before.Some? then before
      else if SameKey(keys[n], key) then Some(View(Kept(xs[n], compress).value)) else None
  }

  lemma AdditionsAt(xs: seq<Addition>, compress: bool, i: nat)
    requires Additions(xs, compress) && i < |xs|
    ensures Additions(xs[..i], compress) && Additions(xs[..i + 1], compress)
    ensures MemoryOk(xs[i].tag, xs[i].mem, xs[i].size) && Kept(xs[i], compress).Some?
    ensures ItemOk(Kept(xs[i], compress).value)
  {
    hide Stored, MemoryOk, ItemOk;
    StoredOk(xs[i].tag, xs[i].mem, xs[i].size, compress);
  }

  lemma FirstSetNext(keys: seq<Key>, xs: seq<Addition>, compress: bool, key: Key, i: nat)
    requires |keys| == |xs| && Additions(xs, compress) && i < |xs|
    ensures Kept(xs[i], compress).Some? && Additions(xs[..i], compress) && Additions(xs[..i + 1], compress)
    ensures ItemOk(Kept(xs[i], compress).value)
    ensures var before := FirstSet(keys[..i], xs[..i], compress, key);
            FirstSet(keys[..i + 1], xs[..i + 1], compress, key) ==
            if before.Some? then before
            else if SameKey(keys[i], key) then Some(View(Kept(xs[i], compress).value)) else None
  {
    hide Stored, MemoryOk, ItemOk, Additions, SameKey, View;
    AdditionsAt(xs, compress, i);
    assert keys[..i + 1][..i] == keys[..i] && xs[..i + 1][..i] == xs[..i];
  }

  /** The state of a container after the first i settings. */
  ghost predicate SoFar(tag: int, es: seq<Entry>, keys: seq<Key>, xs: seq<Addition>, compress: bool, key: Key, i: nat)
  {
    && i <= |xs| == |keys| && Additions(xs, compress) && EntriesOk(tag, es)
    && Held(tag, es, key) == FirstSet(keys[..i], xs[..i], compress, key)
  }

  lemma SetNext(tag: int, es: seq<Entry>, after: seq<Entry>, keys: seq<Key>, xs: seq<Addition>, compress: bool,
      key: Key, i: nat)
    requires SoFar(tag, es, keys, xs, compress, key, i) && i < |xs|
    requires IsContainerType(tag) && KeyOk(tag, keys[i])
    requires var it := Kept(xs[i], compress);
             it.Some? ==>
               after == if forall j :: 0 <= j < |es| ==> !SameKey(es[j].key, keys[i])
                        then es + [Entry(keys[i], it.value)] else es
    ensures SoFar(tag, after, keys, xs, compress, key, i + 1)
  {
    hide Held, EntriesOk, SameKey, Stored, View, KeyOk, ItemOk, Lookup, MemoryOk;
    FirstSetNext(keys, xs, compress, key, i);
    hide FirstSet;
    StoredOk(xs[i].tag, xs[i].mem, xs[i].size, compress);
    LookupFinds(es, keys[i]);
    HeldAfterTry(tag, es, Entry(keys[i], Kept(xs[i], compress).value), key);
  }

  lemma NothingSet(tag: int, keys: seq<Key>, xs: seq<Addition>, compress: bool, key: Key)
    requires |keys| == |xs| && Additions(xs, compress)
    ensures SoFar(tag, [], keys, xs, compress, key, 0)
  {
    assert Lookup([], key).None?;
  }

  /** No key before n is this one. */
  ghost predicate NoneBefore(keys: seq<Key>, key: Key, n: nat)
    requires n <= |keys|
  {
    forall i :: 0 <= i < n ==> !SameKey(keys[i], key)
  }

  /** What is held is the addition that came first for the key. */
  ghost predicate FirstComes(keys: seq<Key>, xs: seq<Addition>, compress: bool, key: Key, v: Option<Value>)
    requires |keys| == |xs|
  {
    && (v.None? <==> NoneBefore(keys, key, |keys|))
    && (v.Some? ==> exists n :: 0 <= n < |keys| && SameKey(keys[n], key) && NoneBefore(keys, key, n)
                                && Comes(xs[n], compress, v.value))
  }

  lemma {:induction false} FirstSetComes(keys: seq<Key>, xs: seq<Addition>, compress: bool, key: Key)
    requires |keys| == |xs| && Additions(xs, compress)
    ensures FirstComes(keys, xs, compress, key, FirstSet(keys, xs, compress, key))
  {
    hide Stored, MemoryOk, ItemOk, SameKey, View, Comes;
    if xs != [] {
      var n := |xs| - 1;
      AdditionsAt(xs, compress, n);
      FirstSetComes(keys[..n], xs[..n], compress, key);
      StoredComes(xs[n], compress);
      var before := FirstSet(keys[..n], xs[..n], compress, key);
      if before.Some? {
        var m :| 0 <= m < n && SameKey(keys[..n][m], key) && NoneBefore(keys[..n], key, m)
                 && Comes(xs[..n][m], compress, before.value);
        assert SameKey(keys[m], key) && Comes(xs[m], compress, before.value);
        assert NoneBefore(keys, key, m) by {
          forall i | 0 <= i < m ensures !SameKey(keys[i], key) { assert keys[..n][i] == keys[i]; }
        }
      } else {
        assert NoneBefore(keys, key, n) by {
          forall i | 0 <= i < n ensures !SameKey(keys[i], key) { assert keys[..n][i] == keys[i]; }
        }
      }
    }
  }

  function NameKeys(names: seq<bytes>): (keys: seq<Key>)
    ensures |keys| == |names| && forall i :: 0 <= i < |names| ==> keys[i] == Name(names[i])
  {
    seq(|names|, i requires 0 <= i < |names| => Name(names[i]))
  }

  function IdKeys(ids: seq<int>): (keys: seq<Key>)
    ensures |keys| == |ids| && forall i :: 0 <= i < |ids| ==> keys[i] == Id(ids[i])
  {
    seq(|ids|, i requires 0 <= i < |ids| => Id(ids[i]))
  }

  /** An object is filled, saved and asked for a name: with memory there it gives the first value that was set for
      that name, in any case of its letters, and nothing if there was none. */
  method ObjectRoundTrip(names: seq<bytes>, xs: seq<Addition>, disableIntCompression: bool, grant: int -> bool,
      name: bytes) returns (value: Option<Value>)
    requires |names| == |xs| && Additions(xs, !disableIntCompression) && forall a: int :: grant(a)
    requires forall i :: 0 <= i < |names| ==> |names[i]| <= 255 && 0 !in names[i]
    requires MAX_BINN_HEADER + NeededFor(xs, !disableIntCompression) + 256 * |xs| <= MAX_ALLOC
    ensures value == FirstSet(NameKeys(names), xs, !disableIntCompression, Name(name))
    ensures FirstComes(NameKeys(names), xs, !disableIntCompression, Name(name), value)
  {
    hide MemoryOk, Stored, Needed, ItemOk, EntriesOk, SavedEntries, AcceptsEntry, Holding, Contains, SoFar, SameKey,
        Held, FirstComes, Added, NeededFor;
    ghost var compress := !disableIntCompression;
    ghost var keys, key := NameKeys(names), Name(name);
    var o := new Binn(OBJECT, 0, None, disableIntCompression);
    NothingSet(OBJECT, keys, xs, compress, key);
    NeededNone(xs, compress);
    for i := 0 to |xs|
      invariant o.Valid() && o.tag == OBJECT && fresh(o) && fresh(o.pbuf)
      invariant SoFar(OBJECT, o.entries, keys, xs, compress, key, i)
      invariant o.usedSize <= MAX_BINN_HEADER + NeededFor(xs[..i], compress) + 256 * i
    {
      NeededPrefix(xs, compress, i + 1);
      NeededNext(xs, compress, i);
      ghost var es := o.entries;
      AcceptsEntryAlways(1 + |names[i]|, Kept(xs[i], compress), o.pbuf.Length, o.preAllocated,
                         o.usedSize, grant);
      var ok := o.ObjectSetRaw(Some(names[i]), xs[i].tag, xs[i].mem, xs[i].size, grant);
      SetNext(OBJECT, es, o.entries, keys, xs, compress, key, i);
    }
    NeededPrefix(xs, compress, |xs|);
    o.SaveHeader();
    SavedReads(o);
    value := ObjectGetValue(o.pbuf[o.ptr..o.usedSize], name);
    ObjectGetIs(o.pbuf[o.ptr..o.usedSize], o.entries, name);
    AllSet(OBJECT, o.entries, keys, xs, compress, key);
    FirstSetComes(keys, xs, compress, key);
  }

  lemma AllSet(tag: int, es: seq<Entry>, keys: seq<Key>, xs: seq<Addition>, compress: bool, key: Key)
    requires SoFar(tag, es, keys, xs, compress, key, |xs|)
    ensures EntriesOk(tag, es) && |keys| == |xs| && Additions(xs, compress)
    ensures Held(tag, es, key) == FirstSet(keys, xs, compress, key)
  {
    hide Held, EntriesOk, FirstSet;
    assert keys[..|xs|] == keys && xs[..|xs|] == xs;
  }

  /** The same for a map and an id. */
  method MapRoundTrip(ids: seq<int>, xs: seq<Addition>, disableIntCompression: bool, grant: int -> bool, id: int)
    returns (value: Option<Value>)
    requires |ids| == |xs| && Additions(xs, !disableIntCompression) && forall a: int :: grant(a)
    requires forall i :: 0 <= i < |ids| ==> -TWO31 <= ids[i] < TWO31
    requires MAX_BINN_HEADER + NeededFor(xs, !disableIntCompression) + 4 * |xs| <= MAX_ALLOC
    ensures value == FirstSet(IdKeys(ids), xs, !disableIntCompression, Id(id))
    ensures FirstComes(IdKeys(ids), xs, !disableIntCompression, Id(id), value)
  {
    hide MemoryOk, Stored, Needed, ItemOk, EntriesOk, SavedEntries, AcceptsEntry, Holding, Contains, SoFar, SameKey,
        Held, FirstComes, Added, NeededFor;
    ghost var compress := !disableIntCompression;
    ghost var keys, key := IdKeys(ids), Id(id);
    var m := new Binn(MAP, 0, None, disableIntCompression);
    NothingSet(MAP, keys, xs, compress, key);
    NeededNone(xs, compress);
    for i := 0 to |xs|
      invariant m.Valid() && m.tag == MAP && fresh(m) && fresh(m.pbuf)
      invariant SoFar(MAP, m.entries, keys, xs, compress, key, i)
      invariant m.usedSize <= MAX_BINN_HEADER + NeededFor(xs[..i], compress) + 4 * i
    {
      NeededPrefix(xs, compress, i + 1);
      NeededNext(xs, compress, i);
      ghost var es := m.entries;
      AcceptsEntryAlways(4, Kept(xs[i], compress), m.pbuf.Length, m.preAllocated, m.usedSize, grant);
      var ok := m.MapSetRaw(ids[i], xs[i].tag, xs[i].mem, xs[i].size, grant);
      SetNext(MAP, es, m.entries, keys, xs, compress, key, i);
    }
    NeededPrefix(xs, compress, |xs|);
    m.SaveHeader();
    SavedReads(m);
    value := MapGetValue(m.pbuf[m.ptr..m.usedSize], id);
    MapGetIs(m.pbuf[m.ptr..m.usedSize], m.entries, id);
    AllSet(MAP, m.entries, keys, xs, compress, key);
    FirstSetComes(keys, xs, compress, key);
  }
}
