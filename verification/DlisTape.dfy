/** What a file holds, as structure: visible records (section 2.3.6 of API RP66 V1) that are tiled by
    logical record segments (section 2.2.2), and the bytes they are written as.  The first theorem: whatever
    the segments hold, the parser stays aligned with them. */
module DlisTape {
  import opened Bytes
  import opened DlisMachine

  datatype Segment = Segment(attr: byte, typ: byte, body: bytes, trailer: bytes)

  /** The trailer is what the attributes announce: padding whose last byte counts it, checksum, trailing length. */
  predicate TrailerOk(attr: byte, trailer: bytes)
  {
    var base := TrailBase(attr);
    if HasPadding(attr) then
      |trailer| > base && trailer[|trailer| - 1 - base] == |trailer| - base
    else
      |trailer| == base
  }

  /** The attribute byte of section 2.2.2.1, bit by bit: an explicitly formatted record, a predecessor, a successor,
      encryption and its packet, a checksum, a trailing length, padding. */
  lemma AttributeBits(bits: seq<nat>, attr: byte)
    requires |bits| == 8 && forall i :: 0 <= i < 8 ==> bits[i] <= 1
    requires attr as int == 128 * bits[0] + 64 * bits[1] + 32 * bits[2] + 16 * bits[3] + 8 * bits[4]
                            + 4 * bits[5] + 2 * bits[6] + bits[7]
    ensures (IsEflr(attr) <==> bits[0] == 1) && (IsFirst(attr) <==> bits[1] == 0)
    ensures (IsEncrypted(attr) <==> bits[3] == 1) && (HasChecksum(attr) <==> bits[5] == 1)
    ensures (HasTrailing(attr) <==> bits[6] == 1) && (HasPadding(attr) <==> bits[7] == 1)
  {
    var q1 := 64 * bits[0] + 32 * bits[1] + 16 * bits[2] + 8 * bits[3] + 4 * bits[4] + 2 * bits[5] + bits[6];
    assert attr / 2 == q1;
    var q2 := 32 * bits[0] + 16 * bits[1] + 8 * bits[2] + 4 * bits[3] + 2 * bits[4] + bits[5];
    assert attr / 4 == q2;
    var q4 := 8 * bits[0] + 4 * bits[1] + 2 * bits[2] + bits[3];
    assert attr / 0x10 == q4;
    assert attr / 0x40 == 2 * bits[0] + bits[1];
  }

  /** Pad bytes, the last of which is their number, then a checksum and a length of two bytes each. */
  lemma TrailerIs(attr: byte, pad: bytes, checksum: bytes, length: bytes)
    requires |checksum| == (if HasChecksum(attr) then 2 else 0) && |length| == (if HasTrailing(attr) then 2 else 0)
    ensures TrailerOk(attr, pad + checksum + length) <==>
            if HasPadding(attr) then pad != [] && pad[|pad| - 1] == |pad| else pad == []
  {
    hide HasPadding, HasChecksum, HasTrailing;
    assert |checksum + length| == TrailBase(attr);
    assert pad + checksum + length == pad + (checksum + length);
  }

  function SegmentLen(g: Segment): nat { 4 + |g.body| + |g.trailer| }

  /** An unencrypted segment of indirectly formatted data. */
  predicate SegmentOk(g: Segment)
  {
    && !IsEncrypted(g.attr) && !IsEflr(g.attr) && g.typ != EOD
    && TrailerOk(g.attr, g.trailer)
    && SegmentLen(g) < TWO16
  }

  function SegmentBytes(g: Segment): (b: bytes)
    requires SegmentLen(g) < TWO16
    ensures |b| == SegmentLen(g)
  {
    WriteBE16(SegmentLen(g)) + [g.attr, g.typ] + g.body + g.trailer
  }

  predicate SegmentsOk(gs: seq<Segment>) { forall i :: 0 <= i < |gs| ==> SegmentOk(gs[i]) }

  function SegmentsLen(gs: seq<Segment>): nat
  {
    if gs == [] then 0 else SegmentLen(gs[0]) + SegmentsLen(gs[1..])
  }

  function SegmentsBytes(gs: seq<Segment>): (b: bytes)
    requires SegmentsOk(gs)
    ensures |b| == SegmentsLen(gs)
  {
    if gs == [] then [] else SegmentBytes(gs[0]) + SegmentsBytes(gs[1..])
  }

  /** A visible record is a run of whole segments. */
  predicate RecordOk(v: seq<Segment>)
  {
    v != [] && SegmentsOk(v) && 4 + SegmentsLen(v) < TWO16
  }

  predicate TapeOk(vs: seq<seq<Segment>>) { forall i :: 0 <= i < |vs| ==> RecordOk(vs[i]) }

  function RecordBytes(v: seq<Segment>): bytes
    requires RecordOk(v)
  {
    WriteBE16(4 + SegmentsLen(v)) + [0xFF, 1] + SegmentsBytes(v)
  }

  function TapeBytes(vs: seq<seq<Segment>>): bytes
    requires TapeOk(vs)
  {
    if vs == [] then [] else RecordBytes(vs[0]) + TapeBytes(vs[1..])
  }

  function Flatten(vs: seq<seq<Segment>>): seq<Segment>
  {
    if vs == [] then [] else vs[0] + Flatten(vs[1..])
  }

  // ----- Where the parser is on the tape -----

  /** What is still to be read: the rest of a segment's body and its trailer, the segments after it in its
      record, and the records after that.  The body starts with what was spliced in front of it. */
  datatype Cursor = Cursor(body: bytes, trailer: bytes, segs: seq<Segment>, records: seq<seq<Segment>>)

  function Start(vs: seq<seq<Segment>>): Cursor { Cursor([], [], [], vs) }

  function ToCome(cur: Cursor): seq<Segment> { cur.segs + Flatten(cur.records) }

  ghost predicate CursorOk(cur: Cursor)
  {
    SegmentsOk(cur.segs) && TapeOk(cur.records)
  }

  function CursorBytes(cur: Cursor): bytes
    requires CursorOk(cur)
  {
    (cur.body + cur.trailer) + (SegmentsBytes(cur.segs) + TapeBytes(cur.records))
  }

  /** The state is at this place of the tape.  tail is what has not been handed to the parser yet. */
  ghost predicate At(s: State, cur: Cursor, tail: bytes)
  {
    && CursorOk(cur)
    && s.win + tail == CursorBytes(cur)
    && (!s.code.ExpectingVr? ==> s.vrRem == |cur.body| + |cur.trailer| + SegmentsLen(cur.segs))
    && match s.code
       case ExpectingVr => cur.body == [] && cur.trailer == [] && cur.segs == [] && s.trail >= 0
       case ExpectingLrs => cur.body == [] && cur.trailer == [] && cur.segs != [] && s.trail >= 0
       case ExpectingTrailing => cur.body == [] && s.trail >= 0 && s.lrsRem == |cur.trailer|
       case Stopped => false
       case _ => InSegment(s, cur)
  }

  ghost predicate InSegment(s: State, cur: Cursor)
  {
    && s.lrsRem == |cur.body| + |cur.trailer|
    && TrailerOk(s.attr, cur.trailer)
    && (s.trail >= 0 ==> s.trail == |cur.trailer|)
    && s.stash == []
  }

  /** The place after a turn, from the states before and after it. */
  function Moved(s: State, t: State, cur: Cursor): Cursor
  {
    match s.code
    case ExpectingVr =>
      if t.code.ExpectingVr? || cur.records == [] then cur else Cursor([], [], cur.records[0], cur.records[1..])
    case ExpectingLrs =>
      if t.code.ExpectingLrs? || cur.segs == [] then cur
      else Cursor(s.stash + cur.segs[0].body, cur.segs[0].trailer, cur.segs[1..], cur.records)
    case ExpectingTrailing => if t.code.ExpectingTrailing? then cur else cur.(trailer := [])
    case _ => cur.(body := cur.body[Max(0, Min(s.lrsRem - t.lrsRem, |cur.body|))..])
  }

  // ----- Alignment -----

  /** A stream seen both as window and rest, and as known bytes and rest. */
  lemma SplitStream(win: bytes, tail: bytes, head: bytes, rest: bytes, n: nat)
    requires win + tail == head + rest
    requires n <= |win| && n <= |head|
    ensures win[..n] == head[..n]
    ensures win[n..] + tail == head[n..] + rest
  {
    assert win[..n] == (win + tail)[..n] == head[..n];
    assert win[n..] + tail == (win + tail)[n..] == head[n..] + rest;
  }

  /** Padding is read from the right byte, and only once it is there. */
  lemma TrailFound(s: State, cur: Cursor, tail: bytes)
    requires At(s, cur, tail)
    ensures var t := WithTrail(s);
            && At(t, cur, tail) && t == s.(trail := t.trail)
            && (t.trail < 0 ==> |s.win| < s.lrsRem && InSegment(s, cur))
            && (t.code.ExpectingIflrHeader? || t.code.ExpectingIflrData? ==> t.trail < 0 || t.trail == |cur.trailer|)
  {
    if s.trail < 0 && HasPadding(s.attr) && |s.win| >= s.lrsRem {
      var block := cur.body + cur.trailer;
      SplitStream(s.win, tail, block, SegmentsBytes(cur.segs) + TapeBytes(cur.records), |block|);
      var k := s.lrsRem - 1 - TrailBase(s.attr);
      assert s.win[k] == s.win[..|block|][k] == block[k];
    }
  }

  lemma RecordAhead(cur: Cursor)
    requires CursorOk(cur) && cur.body == [] && cur.trailer == [] && cur.segs == [] && cur.records != []
    ensures var v := cur.records[0];
            && RecordOk(v) && TapeOk(cur.records[1..])
            && CursorBytes(cur) == (WriteBE16(4 + SegmentsLen(v)) + [0xFF, 1])
                                   + (SegmentsBytes(v) + TapeBytes(cur.records[1..]))
            && CursorOk(Cursor([], [], v, cur.records[1..]))
            && CursorBytes(Cursor([], [], v, cur.records[1..])) == SegmentsBytes(v) + TapeBytes(cur.records[1..])
  {
    hide WriteBE16, SegmentsBytes, SegmentOk;
    var v := cur.records[0];
    assert RecordOk(v);
    var head := WriteBE16(4 + SegmentsLen(v)) + [0xFF, 1];
    assert CursorBytes(cur) == ([] + []) + ([] + ((head + SegmentsBytes(v)) + TapeBytes(cur.records[1..])));
    assert (head + SegmentsBytes(v)) + TapeBytes(cur.records[1..]) ==
           head + (SegmentsBytes(v) + TapeBytes(cur.records[1..]));
  }

  lemma VrAligned(s: State, cur: Cursor, tail: bytes)
    requires At(s, cur, tail) && s.code.ExpectingVr?
    ensures At(StepVr(s).s, Moved(s, StepVr(s).s, cur), tail)
    ensures StepVr(s).Go? ==> cur.records != []
    ensures StepVr(s).Wait? ==> |s.win| < 4 && (tail == [] ==> s.win == [] && cur.records == [])
  {
    if cur.records != [] {
      RecordAhead(cur);
      hide CursorBytes, SegmentsOk, TapeOk, TapeBytes, SegmentsBytes, SegmentsLen, RecordOk;
      var v := cur.records[0];
      var head := WriteBE16(4 + SegmentsLen(v)) + [0xFF, 1];
      var rest := SegmentsBytes(v) + TapeBytes(cur.records[1..]);
      assert |s.win + tail| == |s.win| + |tail|;
      if |s.win| >= 4 {
        SplitStream(s.win, tail, head, rest, 4);
        assert s.win[..4] == head;
        assert s.win[2] == s.win[..4][2] && ReadBE16(s.win) == ReadBE16(s.win[..4]);
        assert StepVr(s).s.win + tail == rest;
      }
    } else {
      assert s.win + tail == [];
    }
  }

  /** The segment whose header comes next, with what is spliced in front of it. */
  function NextSegment(s: State, cur: Cursor): Cursor
    requires cur.segs != []
  {
    Cursor(s.stash + cur.segs[0].body, cur.segs[0].trailer, cur.segs[1..], cur.records)
  }

  /** The four bytes of a segment header, read from a window that may end anywhere after them. */
  lemma HeaderThere(win: bytes, tail: bytes, g: Segment, more: bytes)
    requires SegmentLen(g) < TWO16
    requires win + tail == SegmentBytes(g) + more
    requires |win| >= 4
    ensures win[2] == g.attr && win[3] == g.typ && ReadBE16(win) == SegmentLen(g)
    ensures win[4..] + tail == (g.body + g.trailer) + more
  {
    var head := WriteBE16(SegmentLen(g)) + [g.attr, g.typ];
    assert win + tail == head + ((g.body + g.trailer) + more);
    SplitStream(win, tail, head, (g.body + g.trailer) + more, 4);
    assert win[..4] == head;
    assert win[2] == win[..4][2] && win[3] == win[..4][3] && ReadBE16(win) == ReadBE16(win[..4]);
  }

  lemma SegmentAhead(cur: Cursor)
    requires CursorOk(cur) && cur.body == [] && cur.trailer == [] && cur.segs != []
    ensures SegmentOk(cur.segs[0]) && SegmentsOk(cur.segs[1..])
    ensures CursorBytes(cur) ==
            SegmentBytes(cur.segs[0]) + (SegmentsBytes(cur.segs[1..]) + TapeBytes(cur.records))
  {
    hide SegmentBytes, TapeBytes;
    assert ([] + []) + ((SegmentBytes(cur.segs[0]) + SegmentsBytes(cur.segs[1..])) + TapeBytes(cur.records))
        == SegmentBytes(cur.segs[0]) + (SegmentsBytes(cur.segs[1..]) + TapeBytes(cur.records));
  }

  /** The bytes after a segment's header, before and after a stash is put in front of them. */
  lemma SpliceBytes(s: State, cur: Cursor, tail: bytes)
    requires CursorOk(cur) && cur.body == [] && cur.trailer == [] && cur.segs != []
    requires |s.win| >= 4 && s.win + tail == CursorBytes(cur)
    ensures var g := cur.segs[0];
            && s.win[2] == g.attr && s.win[3] == g.typ && ReadBE16(s.win) == SegmentLen(g)
            && SegmentOk(g) && CursorOk(NextSegment(s, cur))
            && (s.stash + s.win[4..]) + tail == CursorBytes(NextSegment(s, cur))
  {
    hide SegmentBytes, SegmentsBytes, TrailerOk, TapeBytes;
    SegmentAhead(cur);
    var g := cur.segs[0];
    var more := SegmentsBytes(cur.segs[1..]) + TapeBytes(cur.records);
    HeaderThere(s.win, tail, g, more);
    assert (s.stash + s.win[4..]) + tail == s.stash + (s.win[4..] + tail);
    assert ((s.stash + g.body) + g.trailer) + more == s.stash + ((g.body + g.trailer) + more);
  }

  lemma SpliceAligned(s: State, cur: Cursor, tail: bytes)
    requires At(s, cur, tail) && s.code.ExpectingLrs? && |s.win| >= 4
    ensures At(Splice(s).(code := ExpectingIflrData), NextSegment(s, cur), tail)
    ensures s.win[2] == cur.segs[0].attr && s.win[3] == cur.segs[0].typ
  {
    hide CursorOk, CursorBytes, TrailerOk;
    SpliceBytes(s, cur, tail);
  }

  lemma LrsAligned(c: Config, s: State, cur: Cursor, tail: bytes)
    requires At(s, cur, tail) && s.code.ExpectingLrs?
    ensures cur.segs != []
    ensures var r := StepLrs(c, s);
            && (r.Wait? ==> r.s == s && |s.win| < 4 && tail != [])
            && (r.Go? ==> At(r.s, NextSegment(s, cur), tail))
            && (r.Go? ==> Splice(s).attr == cur.segs[0].attr)
            && (r.Go? ==> r.s == Splice(s).(trail := r.s.trail, code := AfterLrs(c, Splice(s), cur.segs[0].typ)))
            && !r.s.code.Stopped?
  {
    var g := cur.segs[0];
    assert SegmentOk(g);
    assert |CursorBytes(cur)| >= |SegmentBytes(g)| >= 4;
    assert |s.win + tail| == |s.win| + |tail|;
    if |s.win| >= 4 {
      SpliceAligned(s, cur, tail);
      hide CursorBytes, CursorOk, TrailerOk;
      TrailFound(Splice(s).(code := ExpectingIflrData), NextSegment(s, cur), tail);
    }
  }

  lemma BodyUsed(s: State, t: State, cur: Cursor, tail: bytes, n: nat)
    requires At(s, cur, tail) && (s.code.ExpectingIflrHeader? || s.code.ExpectingIflrData?)
    requires n <= |cur.body| && n <= |s.win|
    requires t.win == s.win[n..] && t.lrsRem == s.lrsRem - n && t.vrRem == s.vrRem - n && t.attr == s.attr
    requires t.trail == s.trail
    requires t.code.ExpectingIflrHeader? || t.code.ExpectingIflrData? ==> t.stash == []
    requires t.code.ExpectingTrailing? ==> n == |cur.body| && t.trail >= 0
    requires t.code.ExpectingIflrHeader? || t.code.ExpectingIflrData? || t.code.ExpectingTrailing?
    ensures At(t, Moved(s, t, cur), tail)
    ensures Moved(s, t, cur) == cur.(body := cur.body[n..])
    ensures s.win[..n] == cur.body[..n]
  {
    var rest := cur.trailer + (SegmentsBytes(cur.segs) + TapeBytes(cur.records));
    assert s.win + tail == cur.body + rest;
    SplitStream(s.win, tail, cur.body, rest, n);
    assert CursorBytes(cur.(body := cur.body[n..])) == cur.body[n..] + rest;
  }

  lemma TrailingAligned(s: State, cur: Cursor, tail: bytes)
    requires At(s, cur, tail) && s.code.ExpectingTrailing?
    ensures At(StepTrailing(s).s, Moved(s, StepTrailing(s).s, cur), tail)
    ensures StepTrailing(s).Wait? ==> StepTrailing(s).s == s && tail != []
  {
    var rest := SegmentsBytes(cur.segs) + TapeBytes(cur.records);
    assert s.win + tail == cur.trailer + rest;
    if |s.win| >= s.lrsRem {
      SplitStream(s.win, tail, cur.trailer, rest, |cur.trailer|);
      assert CursorBytes(cur.(trailer := [])) == rest;
      assert s.win[s.lrsRem..] + tail == rest;
    }
  }
}
