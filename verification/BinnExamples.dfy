/** The example structures of the documentation of binn (third-parties/binn), byte by byte. */
module BinnExamples {
  import opened Bytes
  import opened BinnFormat
  import opened BinnEntries
  import opened BinnInts
  import opened BinnReader
  import opened BinnStored

  /** The documented types, and one of two bytes that an application may choose, with their storage. */
  lemma Types(tag: int)
    ensures tag in {0, 1, 2, 0x20, 0x21, 0x40, 0x41, 0x60, 0x61, 0x62, 0x80, 0x81, 0x82} ==> TypeOk(tag)
    ensures tag in {0xA0, 0xA1, 0xA2, 0xA3, 0xA4, 0xC0, 0xE0, 0xE1, 0xE2, 0xB015} ==> TypeOk(tag)
    ensures tag in {0, 1, 2} ==> Storage(tag) == NOBYTES
    ensures tag in {0x20, 0x21} ==> Storage(tag) == BYTE
    ensures tag in {0x40, 0x41} ==> Storage(tag) == WORD
    ensures tag in {0x60, 0x61, 0x62} ==> Storage(tag) == DWORD
    ensures tag in {0x80, 0x81, 0x82} ==> Storage(tag) == QWORD
    ensures tag in {0xA0, 0xA1, 0xA2, 0xA3, 0xA4, 0xB015} ==> Storage(tag) == STRING
    ensures tag == 0xC0 ==> Storage(tag) == BLOB
    ensures tag in {0xE0, 0xE1, 0xE2} <==> IsContainerType(tag)
    ensures IsContainerType(tag) ==> Storage(tag) == CONTAINER
  {
  }

  /** What is kept of the 32-bit integer in memory, when the type that it is kept with is known. */
  lemma FourKept(a: byte, b: byte, c: byte, tag: int, w: nat)
    requires var n := (a as int) + 0x100 * b + 0x1_0000 * c + 0x100_0000 * c;
             tag == Compressed(0x61, if c >= 0x80 then n - TWO32 else n)
    requires w == ScalarWidth(tag) <= 4
    ensures Stored(0x61, Some([a, b, c, c]), 0, true) == Some(Item(tag, [c, c, b, a][4 - w..]))
  {
    hide Compressed;
    var mem := [a, b, c, c];
    assert mem[..4] == mem;
    assert Reversed(mem) == [c, c, b, a];
    assert Reversed(mem[..w]) == [c, c, b, a][4 - w..];
  }

  lemma ByteKept(a: byte)
    ensures Stored(0x61, Some([a, 0, 0, 0]), 0, true) == Some(Item(0x20, [a]))
  {
    hide Stored;
    FourKept(a, 0, 0, 0x20, 1);
  }

  lemma PositiveKept(a: byte, b: byte)
    requires b > 0
    ensures Stored(0x61, Some([a, b, 0, 0]), 0, true) == Some(Item(0x40, [b, a]))
  {
    hide Stored;
    FourKept(a, b, 0, 0x40, 2);
  }

  lemma NegativeKept(a: byte, b: byte)
    requires 0x80 <= b < 0xFF
    ensures Stored(0x61, Some([a, b, 0xFF, 0xFF]), 0, true) == Some(Item(0x41, [b, a]))
  {
    hide Stored;
    FourKept(a, b, 0xFF, 0x41, 2);
  }

  /** An item of one byte of type and less than 128 bytes of data. */
  lemma ShortItem(it: Item)
    requires ItemOk(it) && it.tag <= 0xFF && |it.data| <= 127
    ensures Encode(it) == if it.tag >= 0xE0 then it.data
                          else if 0xA0 <= it.tag < 0xC0 then [it.tag as byte, |it.data| as byte] + it.data + [0]
                          else if 0xC0 <= it.tag then [it.tag as byte, 0, 0, 0, |it.data| as byte] + it.data
                          else [it.tag as byte] + it.data
  {
  }

  /** A container with a short header. */
  lemma ShortSaved(tag: byte, count: nat, payload: bytes)
    requires count <= 127 && |payload| <= 124
    ensures Saved(tag, count, payload) == [tag, 3 + |payload|, count] + payload
  {
  }

  /** Up to three entries, one after the other. */
  lemma PayloadOf(tag: int, es: seq<Entry>)
    requires 1 <= |es| <= 3 && forall i :: 0 <= i < |es| ==> EntryOk(tag, es[i])
    ensures var first := EntryBytes(tag, es[0]);
            Payload(tag, es) ==
            if |es| == 1 then first
            else if |es| == 2 then first + EntryBytes(tag, es[1])
            else first + (EntryBytes(tag, es[1]) + EntryBytes(tag, es[2]))
  {
    hide EntryBytes, EntryOk;
    if |es| > 1 {
      assert es[1..][0] == es[1];
      if |es| > 2 {
        assert es[1..][1..][0] == es[2];
        assert es[1..][1..][1..] == [];
      }
    }
  }

  // ----- [123, -456, 789] -----

  const NUMBERS: bytes := [0xE0, 0x0B, 3] + ([0x20, 0x7B] + ([0x41, 0xFE, 0x38] + [0x40, 3, 0x15]))

  lemma NumbersKept()
    ensures Stored(0x61, Some([123, 0, 0, 0]), 0, true) == Some(Item(0x20, [0x7B]))
    ensures Stored(0x61, Some([0x38, 0xFE, 0xFF, 0xFF]), 0, true) == Some(Item(0x41, [0xFE, 0x38]))
    ensures Stored(0x61, Some([0x15, 3, 0, 0]), 0, true) == Some(Item(0x40, [3, 0x15]))
  {
    ByteKept(123);
    NegativeKept(0x38, 0xFE);
    PositiveKept(0x15, 3);
  }

  lemma NumberEntry(it: Item)
    requires (it.tag == 0x20 && |it.data| == 1) || (it.tag in {0x40, 0x41} && |it.data| == 2)
    ensures EntryOk(LIST, Entry(NoKey, it))
    ensures EntryBytes(LIST, Entry(NoKey, it)) ==
            if it.tag == 0x20 then [it.tag as byte, it.data[0]] else [it.tag as byte, it.data[0], it.data[1]]
  {
    ShortItem(it);
  }

  lemma ListOfNumbers()
    ensures var es := [Entry(NoKey, Item(0x20, [0x7B])), Entry(NoKey, Item(0x41, [0xFE, 0x38])),
                       Entry(NoKey, Item(0x40, [3, 0x15]))];
            FitsSaved(LIST, es) && SavedEntries(LIST, es) == NUMBERS
  {
    hide EntryOk, EntryBytes, Payload, Saved;
    var es := [Entry(NoKey, Item(0x20, [0x7B])), Entry(NoKey, Item(0x41, [0xFE, 0x38])),
               Entry(NoKey, Item(0x40, [3, 0x15]))];
    NumberEntry(Item(0x20, [0x7B]));
    NumberEntry(Item(0x41, [0xFE, 0x38]));
    NumberEntry(Item(0x40, [3, 0x15]));
    PayloadOf(LIST, es);
    ShortSaved(LIST, 3, [0x20, 0x7B] + ([0x41, 0xFE, 0x38] + [0x40, 3, 0x15]));
  }

  // ----- {"hello": "world"} -----

  const HELLO: bytes := [104, 101, 108, 108, 111]
  const WORLD: bytes := [119, 111, 114, 108, 100]

  lemma HelloWorld()
    ensures var es := [Entry(Name(HELLO), Item(0xA0, WORLD))];
            && FitsSaved(OBJECT, es)
            && SavedEntries(OBJECT, es) == [0xE2, 0x11, 1] + ([5] + HELLO + ([0xA0, 5] + WORLD + [0]))
  {
    var es := [Entry(Name(HELLO), Item(0xA0, WORLD))];
    ShortItem(es[0].item);
    assert EntryBytes(OBJECT, es[0]) == [5] + HELLO + ([0xA0, 5] + WORLD + [0]);
    hide EntryOk, EntryBytes, Payload;
    PayloadOf(OBJECT, es);
    ShortSaved(OBJECT, 1, EntryBytes(OBJECT, es[0]));
  }

  // ----- {1: "add", 2: [-12345, 6789]} -----

  const PAIR: bytes := [0xE0, 9, 2] + ([0x41, 0xCF, 0xC7] + [0x40, 0x1A, 0x85])

  lemma PairKept()
    ensures Stored(0x61, Some([0xC7, 0xCF, 0xFF, 0xFF]), 0, true) == Some(Item(0x41, [0xCF, 0xC7]))
    ensures Stored(0x61, Some([0x85, 0x1A, 0, 0]), 0, true) == Some(Item(0x40, [0x1A, 0x85]))
  {
    NegativeKept(0xC7, 0xCF);
    PositiveKept(0x85, 0x1A);
  }

  lemma PairSaved()
    ensures var es := [Entry(NoKey, Item(0x41, [0xCF, 0xC7])), Entry(NoKey, Item(0x40, [0x1A, 0x85]))];
            FitsSaved(LIST, es) && SavedEntries(LIST, es) == PAIR
    ensures IsSaved(LIST, PAIR)
  {
    hide EntryOk, EntryBytes, Payload, Saved;
    var es := [Entry(NoKey, Item(0x41, [0xCF, 0xC7])), Entry(NoKey, Item(0x40, [0x1A, 0x85]))];
    NumberEntry(Item(0x41, [0xCF, 0xC7]));
    NumberEntry(Item(0x40, [0x1A, 0x85]));
    PayloadOf(LIST, es);
    var payload := [0x41, 0xCF, 0xC7] + [0x40, 0x1A, 0x85];
    ShortSaved(LIST, 2, payload);
    assert IsSavedAs(LIST, PAIR, 2, payload);
  }

  lemma WordEntry()
    ensures var a := Entry(Id(1), Item(0xA0, [97, 100, 100]));
            EntryOk(MAP, a) && EntryBytes(MAP, a) == [0, 0, 0, 1] + [0xA0, 3, 97, 100, 100, 0]
  {
    ShortItem(Item(0xA0, [97, 100, 100]));
  }

  lemma PairEntry()
    ensures var b := Entry(Id(2), Item(LIST, PAIR));
            EntryOk(MAP, b) && EntryBytes(MAP, b) == [0, 0, 0, 2] + PAIR
  {
    hide IsSaved;
    PairSaved();
    ShortItem(Item(LIST, PAIR));
  }

  lemma MapPayload(a: Entry, b: Entry)
    requires a == Entry(Id(1), Item(0xA0, [97, 100, 100])) && b == Entry(Id(2), Item(LIST, PAIR))
    ensures EntriesOk(MAP, [a, b])
    ensures Payload(MAP, [a, b]) == [0, 0, 0, 1] + [0xA0, 3, 97, 100, 100, 0] + ([0, 0, 0, 2] + PAIR)
  {
    hide EntryOk, EntryBytes, Payload;
    WordEntry();
    PairEntry();
    PayloadOf(MAP, [a, b]);
  }

  lemma ListInMap()
    ensures var es := [Entry(Id(1), Item(0xA0, [97, 100, 100])), Entry(Id(2), Item(LIST, PAIR))];
            && FitsSaved(MAP, es)
            && SavedEntries(MAP, es) ==
               [0xE1, 0x1A, 2] + ([0, 0, 0, 1] + [0xA0, 3, 97, 100, 100, 0] + ([0, 0, 0, 2] + PAIR))
  {
    hide EntriesOk, Payload, Saved;
    var a, b := Entry(Id(1), Item(0xA0, [97, 100, 100])), Entry(Id(2), Item(LIST, PAIR));
    MapPayload(a, b);
    ShortSaved(MAP, 2, Payload(MAP, [a, b]));
  }
}
