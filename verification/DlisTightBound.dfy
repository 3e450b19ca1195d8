/** The bound of DlisCapacity.ChunksFit is exact: with one byte more in a segment or a chunk there is a file
    without ASCII channels that overruns a buffer.  In that file a reference that lacks its last byte is stashed,
    and spliced in front of a padded segment, which is then awaited as a whole. */
module DlisTightBound {
  import opened Bytes
  import opened Rp66Values
  import opened DlisMachine
  import opened DlisTape
  import opened DlisRecords
  import opened DlisFraming
  import opened DlisCapacity
  import opened DlisOverrun
  import opened DlisReader
  import opened DlisTurns

  // ----- The file -----

  /** One frame without a name, with one channel of references. */
  const OBJREF: Config := Config([Frame(0, Obname(0, 0, []), false, [Channel(24, 1)])], 0)

  function Zeros(n: nat): (b: bytes)
    ensures |b| == n
  {
    seq(n, i => 0)
  }

  /** The longest reference, without its last byte. */
  function Partial(): (b: bytes)
    ensures |b| == LONGEST_STASH
  {
    ([255] + Zeros(255)) + ([0xC0, 0, 0, 0, 0] + ([255] + Zeros(254)))
  }

  const HEADER: bytes := [0, 0, 0, 1]

  function FirstSegment(): Segment { Segment(0, 0, HEADER + Partial(), []) }

  /** It continues the record, and has one byte of padding. */
  function PaddedSegment(m: nat): Segment
    requires m >= 5
  {
    Segment(0x41, 0, Zeros(m - 5), [1])
  }

  function Filler(n: nat): seq<seq<Segment>> { seq(n, i => [Segment(0, 0, [], [])]) }

  function File(m: nat, n: nat): seq<seq<Segment>>
    requires m >= 5
  {
    [[FirstSegment()]] + ([[PaddedSegment(m)]] + Filler(n))
  }

  lemma SegmentsFit(m: nat)
    requires 524 <= m < 0xFFFC
    ensures SegmentOk(FirstSegment()) && SegmentLen(FirstSegment()) == 524
    ensures SegmentOk(PaddedSegment(m)) && SegmentLen(PaddedSegment(m)) == m
  {
    assert IsFirst(0) && !HasPadding(0) && TrailBase(0) == 0;
    assert 0x41 / 0x10 == 4 && 0x41 / 4 == 16 && 0x41 / 2 == 32;
    assert !IsEncrypted(0x41) && HasPadding(0x41) && TrailBase(0x41) == 0;
  }

  lemma {:induction false} FillerOk(n: nat)
    ensures TapeOk(Filler(n)) && |TapeBytes(Filler(n))| == 8 * n
    ensures forall g :: g in Flatten(Filler(n)) ==> g == Segment(0, 0, [], [])
  {
    var g := Segment(0, 0, [], []);
    assert SegmentOk(g);
    OneSegment(g);
    if n > 0 {
      FillerOk(n - 1);
      assert Filler(n)[1..] == Filler(n - 1);
      OneRecordBytes(g);
    }
  }

  lemma OneRecordBytes(g: Segment)
    requires SegmentOk(g) && 4 + SegmentLen(g) < TWO16
    ensures RecordOk([g])
    ensures RecordBytes([g]) == WriteBE16(4 + SegmentLen(g)) + [0xFF, 1] + SegmentBytes(g)
  {
    OneSegment(g);
    assert [g][1..] == [];
    assert SegmentsBytes([g][1..]) == [];
    assert SegmentsBytes([g]) == SegmentBytes(g) + [];
  }

  /** The bytes of the file: two headers and the first segment, two headers and the second but for the last byte of
      its trailer, that byte, and the rest. */
  lemma FileBytes(m: nat, n: nat)
    requires 524 <= m < 0xFFFC
    ensures TapeOk(File(m, n)) && TapeBytes(File(m, n)) == Lead(m) + ([1] + TapeBytes(Filler(n)))
    ensures TapeOk(Filler(n)) && |TapeBytes(Filler(n))| == 8 * n
  {
    hide SegmentOk, SegmentLen, FirstSegment, PaddedSegment, RecordBytes, RecordOk, Filler, WriteBE16, SegmentBytes,
        Lead1, Lead2, TapeOk, TapeBytes;
    FillerOk(n);
    FirstBytes();
    PaddedBytes(m);
    var a, b := FirstSegment(), PaddedSegment(m);
    OneRecordBytes(a);
    OneRecordBytes(b);
    TapeUnfolds([b], Filler(n));
    TapeUnfolds([a], [[b]] + Filler(n));
    assert Lead1() + ((Lead2(m) + [1]) + TapeBytes(Filler(n))) == Lead(m) + ([1] + TapeBytes(Filler(n)));
  }

  lemma TapeUnfolds(v: seq<Segment>, vs: seq<seq<Segment>>)
    requires RecordOk(v) && TapeOk(vs)
    ensures TapeOk([v] + vs) && TapeBytes([v] + vs) == RecordBytes(v) + TapeBytes(vs)
  {
    assert ([v] + vs)[1..] == vs;
  }

  lemma FileWithin(m: nat, n: nat)
    requires 524 <= m < 0xFFFC
    ensures SegmentsWithin(Flatten(File(m, n)), m)
  {
    SegmentsFit(m);
    FillerOk(n);
    FlatFile(FirstSegment(), PaddedSegment(m), Filler(n));
    hide Filler, FirstSegment, PaddedSegment, SegmentOk;
    var gs := Flatten(File(m, n));
    forall i | 0 <= i < |gs| ensures SegmentLen(gs[i]) <= m {
      if i >= 2 {
        assert gs[i] == Flatten(Filler(n))[i - 2] && gs[i] in Flatten(Filler(n));
      }
    }
  }

  lemma FlatFile(a: Segment, b: Segment, rest: seq<seq<Segment>>)
    ensures Flatten([[a]] + ([[b]] + rest)) == [a] + ([b] + Flatten(rest))
  {
    var vs := [[b]] + rest;
    assert ([[a]] + vs)[1..] == vs && vs[1..] == rest;
  }

  function Lead1(): bytes { (WriteBE16(528) + [0xFF, 1]) + ((WriteBE16(524) + [0, 0]) + (HEADER + Partial())) }

  function Lead2(m: nat): bytes
    requires 524 <= m < 0xFFFC
  {
    (WriteBE16(4 + m) + [0xFF, 1]) + ((WriteBE16(m) + [0x41, 0]) + Zeros(m - 5))
  }

  function Lead(m: nat): bytes
    requires 524 <= m < 0xFFFC
  {
    Lead1() + Lead2(m)
  }

  lemma FirstBytes()
    ensures SegmentOk(FirstSegment()) && SegmentLen(FirstSegment()) == 524
    ensures WriteBE16(528) + [0xFF, 1] + SegmentBytes(FirstSegment()) == Lead1()
  {
    SegmentsFit(524);
  }

  lemma PaddedBytes(m: nat)
    requires 524 <= m < 0xFFFC
    ensures SegmentOk(PaddedSegment(m)) && SegmentLen(PaddedSegment(m)) == m
    ensures WriteBE16(4 + m) + [0xFF, 1] + SegmentBytes(PaddedSegment(m)) == Lead2(m) + [1]
  {
    SegmentsFit(m);
  }

  // ----- Byte by byte -----

  lemma {:induction false} FeedAllJoin(c: Config, s: State, a: seq<bytes>, b: seq<bytes>)
    ensures FeedAll(c, s, a + b) == FeedAll(c, FeedAll(c, s, a), b)
    ensures FitsAll(c, s, a + b) ==> FitsAll(c, FeedAll(c, s, a), b)
    decreases |a|
  {
    hide Feed;
    if a == [] {
      assert a + b == b;
    } else {
      assert (a + b)[1..] == a[1..] + b;
      FeedAllJoin(c, Feed(c, s, a[0]), a[1..], b);
    }
  }

  function Singles(b: bytes): (ps: seq<bytes>)
    ensures |ps| == |b| && forall i :: 0 <= i < |ps| ==> ps[i] == [b[i]]
  {
    seq(|b|, i requires 0 <= i < |b| => [b[i]])
  }

  lemma SinglesJoin(a: bytes, b: bytes)
    ensures Singles(a + b) == Singles(a) + Singles(b)
  {
  }

  lemma {:induction false} SinglesAre(b: bytes)
    ensures Joined(Singles(b)) == b
  {
    if b != [] {
      SinglesAre(b[1..]);
      assert Singles(b)[1..] == Singles(b[1..]);
    }
  }

  /** No turn does anything until these bytes have come. */
  ghost predicate Quiet(c: Config, s: State, b: bytes)
  {
    !s.code.Stopped? && forall i :: 0 < i <= |b| ==> Step(c, Append(s, b[..i])) == Wait(Append(s, b[..i]))
  }

  lemma {:induction false} QuietSingles(c: Config, s: State, b: bytes)
    requires Quiet(c, s, b)
    ensures FeedAll(c, s, Singles(b)) == Append(s, b)
    decreases |b|
  {
    hide Step;
    if b == [] {
      assert Append(s, b) == s;
    } else {
      var t := Append(s, b[..1]);
      assert Step(c, t) == Wait(t);
      assert Singles(b)[0] == b[..1] && Singles(b)[1..] == Singles(b[1..]);
      forall i | 0 < i <= |b[1..]| ensures Step(c, Append(t, b[1..][..i])) == Wait(Append(t, b[1..][..i])) {
        assert b[..1] + b[1..][..i] == b[..i + 1];
        assert (s.win + b[..1]) + b[1..][..i] == s.win + b[..i + 1];
        assert Append(t, b[1..][..i]) == Append(s, b[..i + 1]);
      }
      QuietSingles(c, t, b[1..]);
      assert (s.win + b[..1]) + b[1..] == s.win + b;
    }
  }

  /** Bytes of which only the last makes the loop turn. */
  lemma FeedSingles(c: Config, s: State, b: bytes)
    requires b != [] && Quiet(c, s, b[..|b| - 1])
    ensures FeedAll(c, s, Singles(b)) == Loop(c, Append(s, b))
  {
    hide Loop, Quiet;
    var front, last := b[..|b| - 1], [b[|b| - 1]];
    assert b == front + last;
    SinglesJoin(front, last);
    QuietSingles(c, s, front);
    FeedAllJoin(c, s, Singles(front), Singles(last));
    NotYetStopped(c, s, front);
    var t := Append(s, front);
    assert Singles(last) == [last];
    assert Singles(last)[1..] == [] && FeedAll(c, t, Singles(last)) == Feed(c, t, last);
    assert (s.win + front) + last == s.win + b;
  }

  lemma NotYetStopped(c: Config, s: State, b: bytes)
    requires Quiet(c, s, b)
    ensures !s.code.Stopped?
  {
  }

  // ----- The states -----

  const READING: Decoding := Decoding(0, 0, 24, 1, 0, [], Number(1))

  const OUT: seq<Event> := [HeaderRead(0, 1)]

  function InFirst(win: bytes): State { State(ExpectingIflrData, win, 516, 516, 0, 0, [], READING, OUT) }

  function InPadded(m: nat, win: bytes): State
  {
    State(ExpectingIflrData, win, m + 512, m + 512, -1, 0x41, [], READING, OUT)
  }

  lemma PartialFails(m: nat)
    requires m <= LONGEST_STASH
    ensures DecodeValue(24, Partial()[..m]).Fail?
  {
    var p := Partial();
    var name := [0xC0, 0, 0, 0, 0] + ([255] + Zeros(254));
    assert p[256..] == name && p[0] == 255;
    assert name[5..] == [255] + Zeros(254);
    assert DecodeIdent(name[5..]).Fail?;
    assert DecodeUvari(name) == Got(0, 4);
    assert DecodeObname(name).Fail?;
    assert DecodeObjref(p).Fail?;
    ValueStable(24, p, m);
  }

  lemma VrQuiet(s: State, b: bytes)
    requires s.code.ExpectingVr? && s.trail >= 0 && |s.win| + |b| < 4
    ensures Quiet(OBJREF, s, b)
  {
  }

  lemma LrsQuiet(s: State, b: bytes)
    requires s.code.ExpectingLrs? && s.trail >= 0 && |s.win| + |b| < 4
    ensures Quiet(OBJREF, s, b)
  {
  }

  lemma FirstVr()
    ensures FeedAll(OBJREF, Begun(OBJREF), Singles(WriteBE16(528) + [0xFF, 1])) ==
            State(ExpectingLrs, [], 524, 0, 0, 0, [], FramesRead(OBJREF), [])
  {
    hide Loop, Quiet, FramesRead;
    var s := Begun(OBJREF);
    var vr := WriteBE16(528) + [0xFF, 1];
    VrQuiet(s, vr[..3]);
    FeedSingles(OBJREF, s, vr);
    var t := State(ExpectingLrs, [], 524, 0, 0, 0, [], FramesRead(OBJREF), []);
    assert [] + vr == vr && vr[4..] == [] && ReadBE16(vr) == ReadBE16(WriteBE16(528));
    VrTurn(OBJREF, Append(s, vr), t);
    Rests(OBJREF, t);
  }

  /** A segment header that is just there. */
  lemma SpliceIs(s: State, len: nat, attr: byte)
    requires len < TWO16 && s.win == WriteBE16(len) + [attr, 0]
    ensures |s.win| == 4 && s.win[3] == 0
    ensures Splice(s) == s.(win := s.stash, lrsRem := len + |s.stash| - 4, vrRem := s.vrRem + |s.stash| - 4,
                            attr := attr, stash := [], trail := -1)
  {
    assert ReadBE16(s.win) == ReadBE16(WriteBE16(len)) && s.stash + s.win[4..] == s.stash;
  }

  lemma FirstLrs()
    ensures FeedAll(OBJREF, State(ExpectingLrs, [], 524, 0, 0, 0, [], FramesRead(OBJREF), []),
                    Singles(WriteBE16(524) + [0, 0])) ==
            State(ExpectingIflrHeader, [], 520, 520, 0, 0, [], FramesRead(OBJREF), [])
  {
    hide Loop, Quiet, FramesRead, DecodeHeader, HasChannel, Splice, WriteBE16;
    var s := State(ExpectingLrs, [], 524, 0, 0, 0, [], FramesRead(OBJREF), []);
    var lrs := WriteBE16(524) + [0, 0];
    LrsQuiet(s, lrs[..3]);
    FeedSingles(OBJREF, s, lrs);
    var t := State(ExpectingIflrHeader, [], 520, 520, 0, 0, [], FramesRead(OBJREF), []);
    assert [] + lrs == lrs;
    SpliceIs(Append(s, lrs), 524, 0);
    LrsTurn(OBJREF, Append(s, lrs), t);
    EmptyHeaderFails();
    HeaderAwaited(OBJREF, t);
    Rests(OBJREF, t);
  }

  lemma HeaderAwaited(c: Config, s: State)
    requires s.code.ExpectingIflrHeader? && s.win == [] && s.lrsRem >= s.trail >= 0 && DecodeHeader([]).Fail?
    ensures Step(c, s) == Wait(s)
  {
    hide DecodeHeader;
  }

  lemma HeaderQuiet(i: nat)
    requires i <= 3
    ensures DecodeHeader(HEADER[..i]).Fail?
  {
    RowHeader([]);
    assert HEADER + [] == HEADER;
    HeaderNeedsAll(HEADER, i);
  }

  lemma HeaderNeedsAll(b: bytes, i: nat)
    requires i <= |b| && DecodeHeader(b).Got? && i < DecodeHeader(b).len
    ensures DecodeHeader(b[..i]).Fail?
  {
    hide DecodeHeader;
    HeaderStable(b, i);
  }

  /** The header of the record. */
  lemma RecordHeader()
    ensures var s := State(ExpectingIflrHeader, [], 520, 520, 0, 0, [], FramesRead(OBJREF), []);
            FeedAll(OBJREF, s, Singles(HEADER)) == InFirst([])
  {
    hide Loop, DecodeHeader, FindFrame, CutHeader, DecodeRun;
    var s := State(ExpectingIflrHeader, [], 520, 520, 0, 0, [], FramesRead(OBJREF), []);
    forall i | 0 < i <= |HEADER[..3]|
      ensures Step(OBJREF, Append(s, HEADER[..3][..i])) == Wait(Append(s, HEADER[..3][..i]))
    {
      HeaderWaits(s, i);
    }
    FeedSingles(OBJREF, s, HEADER);
    RowHeader([]);
    assert HEADER + [] == HEADER && [] + HEADER == HEADER && HEADER[..4] == HEADER && HEADER[4..] == [];
    FrameFound();
    var t := InFirst([]).(dec := FramesRead(OBJREF).(index := Number(1)));
    HeaderTurn(OBJREF, Append(s, HEADER), t);
    FirstTurn();
  }

  lemma FrameFound()
    ensures FindFrame(OBJREF, Obname(0, 0, []), 0) == 0
  {
  }

  lemma HeaderWaits(s: State, i: nat)
    requires s == State(ExpectingIflrHeader, [], 520, 520, 0, 0, [], FramesRead(OBJREF), []) && i <= 3
    ensures Step(OBJREF, Append(s, HEADER[..3][..i])) == Wait(Append(s, HEADER[..3][..i]))
  {
    hide DecodeHeader, FindFrame;
    HeaderQuiet(i);
    var b := HEADER[..3][..i];
    assert b == HEADER[..i] && [] + b == b && b[..i] == b;
  }

  /** The channel is loaded before any of its bytes are there. */
  lemma FirstTurn()
    ensures var t := InFirst([]).(dec := FramesRead(OBJREF).(index := Number(1)));
            Loop(OBJREF, t) == InFirst([])
  {
    hide DecodeValue;
    var t := InFirst([]).(dec := FramesRead(OBJREF).(index := Number(1)));
    assert Partial()[..0] == [];
    PartialFails(0);
    RunUnfolds(24, 1, []);
    NothingTaken(OBJREF, READING);
    assert LoadChannel(OBJREF, t.dec) == READING;
    assert t.win[0..] == [] && t.win[..0] == [];
    assert Step(OBJREF, t) == Wait(InFirst([]));
  }

  lemma PartialWaits(i: nat)
    requires i <= LONGEST_STASH
    ensures Step(OBJREF, InFirst(Partial()[..i])) == Wait(InFirst(Partial()[..i]))
  {
    hide DecodeValue, Partial;
    var b := Partial()[..i];
    PartialFails(i);
    RunUnfolds(24, 1, b);
    NothingTaken(OBJREF, READING);
    assert b[0..] == b && b[..i] == b;
  }

  lemma PartialArrives()
    ensures FeedAll(OBJREF, InFirst([]), Singles(Partial())) == InFirst(Partial())
  {
    hide Step, Partial;
    var s := InFirst([]);
    forall i | 0 < i <= |Partial()|
      ensures Step(OBJREF, Append(s, Partial()[..i])) == Wait(Append(s, Partial()[..i]))
    {
      PartialWaits(i);
      assert [] + Partial()[..i] == Partial()[..i];
    }
    QuietSingles(OBJREF, s, Partial());
    assert [] + Partial() == Partial();
  }

  /** The first byte behind the segment: what is left of it is stashed, and the next visible record is awaited. */
  lemma PartialStashed(b: byte)
    ensures Loop(OBJREF, InFirst(Partial() + [b])) ==
            State(ExpectingVr, [b], 0, 0, 0, 0, Partial(), READING, OUT)
  {
    hide Loop, Partial, StepData;
    var p := Partial();
    var s := InFirst(p + [b]);
    PartialIsNothing(b);
    NothingDecoded(OBJREF, s);
    assert s.win[..516] == p && s.win[516..] == [b];
    var t := State(ExpectingTrailing, [b], 0, 0, 0, 0, p, READING, OUT);
    DataTurn(OBJREF, s, t);
    var u := t.(code := ExpectingVr);
    assert t.win[0..] == t.win;
    TrailingTurn(OBJREF, t, u);
    assert Step(OBJREF, u) == Wait(u);
    Rests(OBJREF, u);
  }

  lemma PartialIsNothing(b: byte)
    ensures var s := InFirst(Partial() + [b]);
            && MayLoad(OBJREF, s.dec) && LoadChannel(OBJREF, s.dec) == READING && Took(OBJREF, READING, []) == READING
            && ValuesIn(READING, BodyInWindow(s)) == NO_RUN
  {
    hide DecodeValue, Partial;
    var p := Partial();
    assert (p + [b])[..516] == p && p[..516] == p;
    PartialFails(516);
    RunUnfolds(24, 1, p);
    NothingTaken(OBJREF, READING);
  }

  lemma SecondVr(m: nat)
    requires 524 <= m < 0xFFFC
    ensures FeedAll(OBJREF, InFirst(Partial()), Singles(WriteBE16(4 + m) + [0xFF, 1])) ==
            State(ExpectingLrs, [], m, 0, 0, 0, Partial(), READING, OUT)
  {
    hide Loop, Partial, Quiet, Step;
    var vr := WriteBE16(4 + m) + [0xFF, 1];
    var s := InFirst(Partial());
    var one, more := vr[..1], vr[1..];
    assert vr == one + more && one[..0] == [];
    SinglesJoin(one, more);
    FeedAllJoin(OBJREF, s, Singles(one), Singles(more));
    NothingQuiet(s);
    FeedSingles(OBJREF, s, one);
    PartialStashed(vr[0]);
    assert one == [vr[0]];
    var t := State(ExpectingVr, [vr[0]], 0, 0, 0, 0, Partial(), READING, OUT);
    VrQuiet(t, more[..2]);
    FeedSingles(OBJREF, t, more);
    assert [vr[0]] + more == vr;
    VrRead(m, vr);
  }

  lemma NothingQuiet(s: State)
    requires !s.code.Stopped?
    ensures Quiet(OBJREF, s, [])
  {
  }

  lemma VrRead(m: nat, vr: bytes)
    requires 524 <= m < 0xFFFC && vr == WriteBE16(4 + m) + [0xFF, 1]
    ensures Loop(OBJREF, State(ExpectingVr, vr, 0, 0, 0, 0, Partial(), READING, OUT)) ==
            State(ExpectingLrs, [], m, 0, 0, 0, Partial(), READING, OUT)
  {
    hide Loop, Partial;
    var s := State(ExpectingVr, vr, 0, 0, 0, 0, Partial(), READING, OUT);
    var t := State(ExpectingLrs, [], m, 0, 0, 0, Partial(), READING, OUT);
    assert vr[4..] == [] && ReadBE16(vr) == ReadBE16(WriteBE16(4 + m)) == 4 + m;
    VrTurn(OBJREF, s, t);
    Rests(OBJREF, t);
  }

  /** The stash goes in front of the padded segment, whose length is not known before all of it is there. */
  lemma SecondLrs(m: nat)
    requires 524 <= m < 0xFFFC
    ensures FeedAll(OBJREF, State(ExpectingLrs, [], m, 0, 0, 0, Partial(), READING, OUT),
                    Singles(WriteBE16(m) + [0x41, 0])) == InPadded(m, Partial())
  {
    hide Loop, Partial, Quiet, Splice, WriteBE16;
    var lrs := WriteBE16(m) + [0x41, 0];
    var s := State(ExpectingLrs, [], m, 0, 0, 0, Partial(), READING, OUT);
    LrsQuiet(s, lrs[..3]);
    FeedSingles(OBJREF, s, lrs);
    assert [] + lrs == lrs;
    SpliceIs(Append(s, lrs), m, 0x41);
    PaddedAttributes();
    var t := InPadded(m, Partial());
    LrsTurn(OBJREF, Append(s, lrs), t);
    assert Step(OBJREF, t) == Wait(t);
    Rests(OBJREF, t);
  }

  lemma PaddedAttributes()
    ensures !IsEncrypted(0x41) && HasPadding(0x41) && !IsFirst(0x41) && !IsEflr(0x41)
  {
    assert 0x41 / 0x10 == 4 && 0x41 / 0x40 == 1;
  }

  lemma PaddedArrives(m: nat)
    requires 524 <= m < 0xFFFC
    ensures FeedAll(OBJREF, InPadded(m, Partial()), Singles(Zeros(m - 5))) == InPadded(m, Partial() + Zeros(m - 5))
  {
    hide Partial;
    var s := InPadded(m, Partial());
    assert HasPadding(0x41);
    QuietSingles(OBJREF, s, Zeros(m - 5));
  }

  /** All but the last byte of the padded segment is unread, with the stash in front. */
  lemma LeadArrives(m: nat)
    requires 524 <= m < 0xFFFC
    ensures FeedAll(OBJREF, Begun(OBJREF), Singles(Lead(m))) == InPadded(m, Partial() + Zeros(m - 5))
  {
    hide FeedAll, Singles, Partial, Zeros, InFirst, InPadded;
    var vr, lrs := WriteBE16(528) + [0xFF, 1], WriteBE16(524) + [0, 0];
    var vr2, lrs2 := WriteBE16(4 + m) + [0xFF, 1], WriteBE16(m) + [0x41, 0];
    var s0 := Begun(OBJREF);
    var s := FeedAll(OBJREF, s0, Singles(vr + (lrs + (HEADER + Partial()))));
    FeedParts(s0, vr, lrs + (HEADER + Partial()));
    FeedParts(FeedAll(OBJREF, s0, Singles(vr)), lrs, HEADER + Partial());
    FirstVr();
    FirstLrs();
    RecordHeader();
    FeedParts(FeedAll(OBJREF, FeedAll(OBJREF, s0, Singles(vr)), Singles(lrs)), HEADER, Partial());
    PartialArrives();
    assert s == InFirst(Partial());
    FeedParts(s0, Lead1(), Lead2(m));
    FeedParts(s, vr2, lrs2 + Zeros(m - 5));
    SecondVr(m);
    FeedParts(FeedAll(OBJREF, s, Singles(vr2)), lrs2, Zeros(m - 5));
    SecondLrs(m);
    PaddedArrives(m);
  }

  lemma FeedParts(s: State, a: bytes, b: bytes)
    ensures FeedAll(OBJREF, s, Singles(a + b)) == FeedAll(OBJREF, FeedAll(OBJREF, s, Singles(a)), Singles(b))
  {
    SinglesJoin(a, b);
    FeedAllJoin(OBJREF, s, Singles(a), Singles(b));
  }

  // ----- The bound -----

  /** A file without ASCII channels, in segments of at most m bytes and chunks of at most n. */
  ghost predicate Suits(c: Config, s: State, vs: seq<seq<Segment>>, chunks: seq<bytes>, m: nat, n: nat)
  {
    && BoundedFrames(c) && TapeOk(vs) && BetweenRecords(c, s) && Joined(chunks) == TapeBytes(vs)
    && SegmentsWithin(Flatten(vs), m)
    && forall i :: 0 <= i < |chunks| ==> |chunks[i]| <= n
  }

  /** One byte at a time, then one chunk of n bytes, and the rest one byte at a time. */
  function Chunks(m: nat, n: nat): (chunks: seq<bytes>)
    requires 524 <= m < 0xFFFC && n >= 1
    requires TapeOk(Filler(n)) && |TapeBytes(Filler(n))| == 8 * n
  {
    var rest := [1] + TapeBytes(Filler(n));
    Singles(Lead(m)) + ([rest[..n]] + Singles(rest[n..]))
  }

  lemma {:induction false} JoinedJoin(a: seq<bytes>, b: seq<bytes>)
    ensures Joined(a + b) == Joined(a) + Joined(b)
  {
    if a == [] {
      assert a + b == b;
    } else {
      assert (a + b)[1..] == a[1..] + b;
      JoinedJoin(a[1..], b);
    }
  }

  lemma ChunksAre(m: nat, n: nat)
    requires 524 <= m < 0xFFFC && n >= 1
    ensures TapeOk(Filler(n)) && |TapeBytes(Filler(n))| == 8 * n
    ensures Suits(OBJREF, Begun(OBJREF), File(m, n), Chunks(m, n), m, n)
  {
    FillerOk(n);
    FileBytes(m, n);
    FileWithin(m, n);
    hide Lead, Filler, File, TapeOk, SegmentsWithin, TapeBytes, Flatten, Joined, BoundedFrames, BetweenRecords, Begun,
        Singles;
    ReferencesBounded();
    var rest := [1] + TapeBytes(Filler(n));
    SinglesAre(Lead(m));
    SinglesAre(rest[n..]);
    JoinedJoin(Singles(Lead(m)), [rest[..n]] + Singles(rest[n..]));
    JoinedJoin([rest[..n]], Singles(rest[n..]));
    JoinedOne(rest[..n]);
    assert rest[..n] + rest[n..] == rest;
  }

  lemma JoinedOne(b: bytes)
    ensures Joined([b]) == b
  {
    assert [b][1..] == [] && b + [] == b;
  }

  lemma ReferencesBounded()
    ensures BoundedFrames(OBJREF) && BetweenRecords(OBJREF, Begun(OBJREF))
  {
  }

  lemma TooMuch(m: nat, n: nat)
    requires 524 <= m < 0xFFFC && n >= 1 && m + LONGEST_STASH - 5 + n > DLIS_BUFF_SIZE
    ensures TapeOk(Filler(n)) && |TapeBytes(Filler(n))| == 8 * n
    ensures !FitsAll(OBJREF, Begun(OBJREF), Chunks(m, n))
  {
    FillerOk(n);
    LeadArrives(m);
    hide Lead, Filler, Feed, FeedAll, TapeBytes;
    var rest := [1] + TapeBytes(Filler(n));
    FeedAllJoin(OBJREF, Begun(OBJREF), Singles(Lead(m)), [rest[..n]] + Singles(rest[n..]));
    assert ([rest[..n]] + Singles(rest[n..]))[0] == rest[..n];
  }

  /** Every file without ASCII channels fits, if and only if the longest segment, 511 bytes and the longest chunk
      do. */
  lemma TightBound(m: nat, n: nat)
    requires 524 <= m < 0xFFFC && n >= 1
    ensures (forall c, s, vs, chunks :: Suits(c, s, vs, chunks, m, n) ==> FitsAll(c, s, chunks))
            <==> m + 511 + n <= DLIS_BUFF_SIZE
  {
    hide FitsAll, Suits;
    if m + 511 + n <= DLIS_BUFF_SIZE {
      forall c, s, vs, chunks | Suits(c, s, vs, chunks, m, n) ensures FitsAll(c, s, chunks) {
        Fits(c, s, vs, chunks, m, n);
      }
    } else {
      ChunksAre(m, n);
      TooMuch(m, n);
    }
  }

  lemma Fits(c: Config, s: State, vs: seq<seq<Segment>>, chunks: seq<bytes>, m: nat, n: nat)
    requires 524 <= m && m + 511 + n <= DLIS_BUFF_SIZE && Suits(c, s, vs, chunks, m, n)
    ensures FitsAll(c, s, chunks)
  {
    hide FitsAll, Flatten, TapeOk, TapeBytes;
    ChunksFit(c, s, vs, chunks, m, n);
  }
}
