/** The real object reading a whole file, and files on which the parser of node-addon/src/dlis.cc fails: one for
    each way out of the exact conditions of DlisFraming.CutsDoNotMatter, DlisFirstRecord.FirstRecordComesThrough and
    DlisRecords.RecordComesThrough.  DlisOverrun has those that overrun its buffers. */
module DlisFindings {
  import opened Bytes
  import opened Rp66Delivery
  import opened Rp66Values
  import opened DlisMachine
  import opened DlisTape
  import opened DlisRecords
  import opened DlisFraming
  import opened DlisFirstRecord
  import opened DlisCapacity
  import opened DlisOverrun
  import opened DlisReader
  import opened DlisTurns

  // ----- A whole file -----

  /** do_parse, from the first frame data on: with segments of at most 16384 bytes, chunks of at most 4000 and no
      ASCII channels no buffer overruns; and if the first header is not cut, what is reported, where the parser ends,
      and whether it crashes are what the segments say. */
  method ReadFile(c: Config, ghost vs: seq<seq<Segment>>, chunks: seq<bytes>) returns (d: Dlis)
    requires BoundedFrames(c) && TapeOk(vs) && SegmentsWithin(Flatten(vs), 16384)
    requires TapeEvents(c, Flatten(vs)).Some? && FirstHeaderSafe(c, FramesRead(c), Flatten(vs))
    requires Joined(chunks) == TapeBytes(vs) && forall i :: 0 <= i < |chunks| ==> |chunks[i]| <= 4000
    ensures fresh(d) && d.Valid()
    ensures d.out == Events(TapeEvents(c, Flatten(vs))) <==> FollowedFull(Flatten(vs))
    ensures BetweenRecords(c, d.Abs()) <==> EndsFull(Flatten(vs))
    ensures d.code.Stopped? <==> !EndsBare(Flatten(vs))
  {
    hide FeedAll, TapeEvents, Flatten, EndsFull, FollowedFull, EndsBare, TapeBytes, TapeOk, FramesRead, FirstHeaderSafe;
    d := new Dlis(c);
    BegunBetween(c);
    ChunksFit(c, d.Abs(), vs, chunks, 16384, 4000);
    CutsDoNotMatter(c, d.Abs(), vs, chunks);
    d.ReadAll(chunks);
    d.AbsFields();
    ghost var es := Events(TapeEvents(c, Flatten(vs)));
    assert [] + es == es;
  }

  lemma BegunBetween(c: Config)
    ensures BetweenRecords(c, Begun(c))
  {
  }

  // ----- Rows in two segments -----

  /** One frame without a name, with one channel of one USHORT. */
  const CONFIG: Config := Config([Frame(0, Obname(0, 0, []), false, [Channel(15, 1)])], 0)

  /** Row 1 of the frame, with the value 7. */
  const ROW: bytes := [0, 0, 0, 1, 7]

  const ROW_EVENTS: seq<Event> := [HeaderRead(0, 1), CurveWritten(0, 0, Number(1), [Unsigned(7)])]

  function FirstPart(k: nat): Segment
    requires k <= |ROW|
  {
    Segment(0, 0, ROW[..k], [])
  }

  function LastPart(k: nat): Segment
    requires k <= |ROW|
  {
    Segment(0x40, 0, ROW[k..], [])
  }

  /** The row in two segments of one visible record. */
  function RowCutAt(k: nat): seq<Segment>
    requires k <= |ROW|
  {
    [FirstPart(k), LastPart(k)]
  }

  lemma RowOk(k: nat)
    requires k <= |ROW|
    ensures RecordOk(RowCutAt(k))
  {
    var v := RowCutAt(k);
    assert v[1..] == [LastPart(k)] && [LastPart(k)][1..] == [];
    assert SegmentsLen([LastPart(k)]) == SegmentLen(LastPart(k)) + SegmentsLen([]);
    assert SegmentsLen(v) == SegmentLen(FirstPart(k)) + SegmentsLen([LastPart(k)]);
    assert SegmentOk(FirstPart(k)) && SegmentOk(LastPart(k));
  }

  /** The files with one row and with two, in as many visible records. */
  function OneRow(k: nat): bytes
    requires k <= |ROW|
  {
    RowOk(k);
    TapeBytes([RowCutAt(k)])
  }

  function TwoRows(j: nat, k: nat): bytes
    requires j <= |ROW| && k <= |ROW|
  {
    RowOk(j);
    RowOk(k);
    TapeBytes([RowCutAt(j), RowCutAt(k)])
  }

  lemma RowsWritten(j: nat, k: nat)
    requires j <= |ROW| && k <= |ROW|
    ensures TapeOk([RowCutAt(k)]) && TapeBytes([RowCutAt(k)]) == OneRow(k)
    ensures TapeOk([RowCutAt(j), RowCutAt(k)]) && TapeBytes([RowCutAt(j), RowCutAt(k)]) == TwoRows(j, k)
  {
    hide RecordOk, TapeBytes, RowCutAt;
    RowOk(j);
    RowOk(k);
  }

  lemma RunHolds()
    ensures DecodeRun(15, 1, [7]) == Run([Unsigned(7)], 1)
  {
    assert DecodeValue(15, [7]) == Got(Unsigned(7), 1);
    assert DecodeRun(15, 0, [7][1..]) == NO_RUN;
  }

  lemma CurvesHold()
    ensures CurveEvents(CONFIG, 0, 0, Number(1), [7]) == Some([CurveWritten(0, 0, Number(1), [Unsigned(7)])])
  {
    hide DecodeRun;
    RunHolds();
    assert [7][1..] == [] && DeliverAll([Unsigned(7)]) == [Unsigned(7)];
    assert CurveEvents(CONFIG, 0, 1, Number(1), []) == Some([]);
    var curve := [CurveWritten(0, 0, Number(1), [Unsigned(7)])];
    assert curve + [] == curve;
    assert CurveThen(CONFIG, 0, 0, Number(1), [Unsigned(7)], []) == Some(curve);
    assert NewIndex(CONFIG, 0, 0, Number(1), [Unsigned(7)]) == Number(1);
  }

  lemma RowHolds()
    ensures DecodeHeader(ROW) == Got((Obname(0, 0, []), 1), 4)
    ensures RecordEvents(CONFIG, ROW) == Some(ROW_EVENTS)
  {
    hide DecodeHeader, CurveEvents;
    RowHeader([7]);
    assert [0, 0, 0, 1] + [7] == ROW;
    CurvesHold();
    assert FindFrame(CONFIG, Obname(0, 0, []), 0) == 0;
    assert ROW[4..] == [7];
    assert [HeaderRead(0, 1)] + [CurveWritten(0, 0, Number(1), [Unsigned(7)])] == ROW_EVENTS;
  }

  /** A record of two segments, in front of others. */
  lemma TwoThen(c: Config, a: Segment, b: Segment, gs: seq<Segment>, es: seq<Event>)
    requires IsFirst(a.attr) && !IsFirst(b.attr) && StartsRecord(gs)
    requires RecordEvents(c, a.body + b.body) == Some(es) && TapeEvents(c, gs).Some?
    ensures TapeEvents(c, [a, b] + gs) == Some(es + Events(TapeEvents(c, gs)))
  {
    var more, rest := [a, b] + gs, [b] + gs;
    assert more[0] == a && more[1..] == rest && rest[0] == b && rest[1..] == gs;
    assert Continued(gs) == [] && Beyond(gs) == gs;
    assert Continued(rest) == b.body && Beyond(rest) == gs by {
      assert b.body + [] == b.body;
    }
    hide RecordEvents, Continued, Beyond;
  }

  /** A row in front of others. */
  lemma RowThen(k: nat, gs: seq<Segment>)
    requires k <= |ROW| && StartsRecord(gs) && TapeEvents(CONFIG, gs).Some?
    ensures StartsRecord(RowCutAt(k) + gs)
    ensures TapeEvents(CONFIG, RowCutAt(k) + gs) == Some(ROW_EVENTS + Events(TapeEvents(CONFIG, gs)))
  {
    hide RecordEvents, TapeEvents, DecodeHeader;
    RowHolds();
    assert ROW[..k] + ROW[k..] == ROW;
    TwoThen(CONFIG, FirstPart(k), LastPart(k), gs, ROW_EVENTS);
  }

  /** How a row of two segments ends, and how one does that is followed by others. */
  lemma RowEnds(k: nat)
    requires k <= |ROW|
    ensures var gs := RowCutAt(k);
            && (EndsFull(gs) <==> 0 < k < |ROW|) && (FollowedFull(gs) <==> 0 < k) && (EndsBare(gs) <==> 0 < k)
  {
    var gs := RowCutAt(k);
    assert EndsRecord(gs, 1) && !EndsRecord(gs, 0) && AtFollowedEnd(gs, 0) && !AtFollowedEnd(gs, 1);
    var front := gs[..1];
    assert front == [FirstPart(k)] && EndsRecord(front, 0);
  }

  /** A record of two segments, in front of others. */
  lemma TwoEnd(a: Segment, b: Segment, gs: seq<Segment>)
    requires IsFirst(a.attr) && !IsFirst(b.attr) && gs != [] && IsFirst(gs[0].attr)
    ensures EndsFull([a, b] + gs) <==> a.body != [] && b.body != [] && EndsFull(gs)
    ensures FollowedFull([a, b] + gs) <==> a.body != [] && b.body != [] && FollowedFull(gs)
    ensures EndsBare([a, b] + gs) <==> a.body != [] && b.body != [] && EndsBare(gs)
  {
    var more, rest := [a, b] + gs, [b] + gs;
    assert more[1..] == rest && rest[1..] == gs;
    EndsFullUnfolds(more);
    EndsFullUnfolds(rest);
    FollowedFullUnfolds(more);
    FollowedFullUnfolds(rest);
    EndsBareFirst(more);
    hide EndsFull, FollowedFull, EndsBare;
    assert EndsRecord(rest, 0) && AtFollowedEnd(rest, 0) && AtFollowedEnd(more, 0) && !EndsRecord(more, 0);
    assert Continued(gs) == [] && Continued(rest) == b.body + [];
    if b.body != [] {
      EndsBareContinued(rest);
    } else {
      EndsBareNothing(rest);
    }
  }

  lemma RowsEnd(j: nat, k: nat)
    requires j <= |ROW| && k <= |ROW|
    ensures var gs := RowCutAt(j) + RowCutAt(k);
            && (EndsFull(gs) <==> 0 < j < |ROW| && 0 < k < |ROW|)
            && (FollowedFull(gs) <==> 0 < j < |ROW| && 0 < k)
            && (EndsBare(gs) <==> 0 < j < |ROW| && 0 < k)
  {
    hide EndsFull, FollowedFull, EndsBare;
    RowEnds(k);
    TwoEnd(FirstPart(j), LastPart(j), RowCutAt(k));
  }

  lemma HeaderInPart(k: nat)
    requires k <= |ROW|
    ensures DecodeHeader(FirstPart(k).body).Got? <==> k >= 4
  {
    RowHolds();
    hide DecodeHeader;
    HeaderStable(ROW, k);
  }

  lemma NothingTaped()
    ensures TapeEvents(CONFIG, []) == Some([])
  {
  }

  lemma FlatRow(v: seq<Segment>)
    ensures Flatten([v]) == v
  {
    assert [v][1..] == [] && v + [] == v;
    assert Flatten([v][1..]) == [];
  }

  lemma FlatRows(v: seq<Segment>, w: seq<Segment>)
    ensures Flatten([v, w]) == v + w
  {
    assert [v, w][1..] == [w];
    FlatRow(w);
  }

  /** The first row of a file, when reading the frames has left a current channel: it is lost if its header is cut,
      and comes through if it is not, whatever the chunks.  If its last segment is empty and nothing comes behind,
      only the parser does not end between records. */
  lemma FirstRow(k: nat, chunks: seq<bytes>)
    requires k <= |ROW| && Joined(chunks) == OneRow(k)
    ensures var t := FeedAll(CONFIG, Begun(CONFIG), chunks);
            && (t.out == ROW_EVENTS <==> k >= 4)
            && (k >= 4 ==> !t.code.Stopped? && (BetweenRecords(CONFIG, t) <==> k == 4))
  {
    hide FeedAll, TapeEvents, EndsFull, FollowedFull, EndsBare, DecodeHeader, TapeOk, TapeBytes, OneRow;
    RowsWritten(k, k);
    FlatRow(RowCutAt(k));
    RowEnds(k);
    NothingTaped();
    RowThen(k, []);
    assert RowCutAt(k) + [] == RowCutAt(k) && ROW_EVENTS + [] == ROW_EVENTS;
    HeaderInPart(k);
    FirstRecordComesThrough(CONFIG, Begun(CONFIG), [RowCutAt(k)], chunks);
  }

  /** The second row of a file, after a first one of which the first segment has j bytes.  Both come through if and
      only if neither begins with an empty segment, nor the first one ends with one; otherwise the parser crashes. */
  lemma SecondRow(j: nat, k: nat, chunks: seq<bytes>)
    requires 4 <= j <= |ROW| && k <= |ROW| && Joined(chunks) == TwoRows(j, k)
    ensures var t := FeedAll(CONFIG, Begun(CONFIG), chunks);
            && (t.out == ROW_EVENTS + ROW_EVENTS <==> j == 4 && k > 0)
            && (t.code.Stopped? <==> !(j == 4 && k > 0))
            && (BetweenRecords(CONFIG, t) <==> j == 4 && 0 < k < |ROW|)
  {
    hide FeedAll, TapeEvents, EndsFull, FollowedFull, EndsBare, DecodeHeader, TapeOk, TapeBytes, TwoRows;
    RowsWritten(j, k);
    FlatRows(RowCutAt(j), RowCutAt(k));
    RowsEnd(j, k);
    NothingTaped();
    RowThen(k, []);
    assert RowCutAt(k) + [] == RowCutAt(k) && ROW_EVENTS + [] == ROW_EVENTS;
    RowThen(j, RowCutAt(k));
    HeaderInPart(j);
    CutsDoNotMatter(CONFIG, Begun(CONFIG), [RowCutAt(j), RowCutAt(k)], chunks);
  }

  // ----- What is delivered -----

  /** The type "A" of a reference to the object (1, 0, "") arrives as the byte 1, and the text "A", 0, "B" as "A". */
  lemma ValuesChanged()
    ensures Deliver(Reference([65], Obname(1, 0, []))) == Reference([1], Obname(1, 0, []))
    ensures Deliver(Text([65, 0, 66])) == Text([65])
  {
    var mem := NumbersInMemory(Obname(1, 0, []));
    assert mem[..1] == [1];
    assert CStr([1]) == [1] by {
      assert [1][1..] == [];
    }
    assert [65, 0, 66][1..] == [0, 66];
    assert CStr([0, 66]) == [];
  }

  /** One channel of one ORIGIN. */
  const ORIGINS: Config := Config([Frame(0, Obname(0, 0, []), false, [Channel(ORIGIN, 1)])], 0)

  function OriginFile(): bytes { [0, 13, 0xFF, 1] + ([0, 9, 0, 0] + ROW) }

  /** A file with one row of one ORIGIN, in one segment and one chunk: its value is not reported, as the program
      takes it for the address of a text. */
  lemma OriginCrashes()
    ensures TapeOk([[Segment(0, 0, ROW, [])]]) && TapeBytes([[Segment(0, 0, ROW, [])]]) == OriginFile()
    ensures var t := Feed(ORIGINS, Begun(ORIGINS), OriginFile());
            t.code.Stopped? && t.out == [HeaderRead(0, 1)]
  {
    hide Loop;
    OneTape(Segment(0, 0, ROW, []), OriginFile());
    FramesOfOrigins();
    assert [] + OriginFile() == OriginFile();
    OriginHeaders();
    OriginRow();
  }

  const NO_DATA: Decoding := Decoding(0, 0, 0, 0, 0, [], Number(0))

  lemma OriginHeaders()
    ensures Loop(ORIGINS, State(ExpectingVr, OriginFile(), 0, 0, 0, 0, [], NO_DATA, [])) ==
            Loop(ORIGINS, State(ExpectingIflrHeader, ROW, 5, 5, 0, 0, [], NO_DATA, []))
  {
    hide Loop;
    var body := [0, 9, 0, 0] + ROW;
    var s := State(ExpectingVr, OriginFile(), 0, 0, 0, 0, [], NO_DATA, []);
    assert s.win[4..] == body;
    VrTurn(ORIGINS, s, State(ExpectingLrs, body, 9, 0, 0, 0, [], NO_DATA, []));
    OriginSegment(body);
  }

  lemma OriginSegment(body: bytes)
    requires body == [0, 9, 0, 0] + ROW
    ensures Loop(ORIGINS, State(ExpectingLrs, body, 9, 0, 0, 0, [], NO_DATA, [])) ==
            Loop(ORIGINS, State(ExpectingIflrHeader, ROW, 5, 5, 0, 0, [], NO_DATA, []))
  {
    hide Loop, HasChannel;
    assert [] + body[4..] == ROW;
    LrsTurn(ORIGINS, State(ExpectingLrs, body, 9, 0, 0, 0, [], NO_DATA, []),
            State(ExpectingIflrHeader, ROW, 5, 5, 0, 0, [], NO_DATA, []));
  }

  lemma OriginRow()
    ensures var t := Loop(ORIGINS, State(ExpectingIflrHeader, ROW, 5, 5, 0, 0, [], NO_DATA, []));
            t.code.Stopped? && t.out == [HeaderRead(0, 1)]
  {
    hide Loop, DecodeHeader, DecodeRun;
    RowHolds();
    var s := State(ExpectingIflrHeader, ROW, 5, 5, 0, 0, [], NO_DATA, []);
    var t := State(ExpectingIflrData, [7], 1, 1, 0, 0, [], NO_DATA.(index := Number(1)), [HeaderRead(0, 1)]);
    assert FindFrame(ORIGINS, Obname(0, 0, []), 0) == 0;
    assert ROW[4..] == [7] && ROW[..5] == ROW;
    HeaderTurn(ORIGINS, s, t);
    OriginRun();
    assert t.win[..1] == [7];
    assert StepData(ORIGINS, t) == Stop(t);
    LastTurn(ORIGINS, t);
  }

  lemma OneTape(g: Segment, b: bytes)
    requires SegmentOk(g) && 4 + SegmentLen(g) < TWO16
    requires b == WriteBE16(4 + SegmentLen(g)) + [0xFF, 1]
                  + (WriteBE16(SegmentLen(g)) + [g.attr, g.typ] + g.body + g.trailer)
    ensures TapeOk([[g]]) && TapeBytes([[g]]) == b
  {
    OneSegment(g);
    assert [g][1..] == [] && [[g]][1..] == [];
    assert SegmentsBytes([g]) == SegmentBytes(g) + SegmentsBytes([]);
    assert TapeBytes([[g]]) == RecordBytes([g]) + TapeBytes([]);
  }

  lemma FramesOfOrigins()
    ensures FramesRead(ORIGINS) == NO_DATA
  {
  }

  lemma OriginRun()
    ensures DecodeRun(ORIGIN, 1, [7]) == Run([Unsigned(7)], 1)
  {
    assert DecodeValue(ORIGIN, [7]) == Got(Unsigned(7), 1);
    assert DecodeRun(ORIGIN, 0, [7][1..]) == NO_RUN;
  }
}
