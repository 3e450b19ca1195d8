/** Why DlisFirstRecord.FirstRecordComesThrough is about one record: a file of two, in which the header of the first
    is cut while a channel is current, and everything is reported all the same. */
module DlisLuckyFile {
  import opened Bytes
  import opened Rp66Delivery
  import opened Rp66Values
  import opened DlisMachine
  import opened DlisTape
  import opened DlisRecords
  import opened DlisFraming
  import opened DlisFindings
  import opened DlisReader
  import opened DlisTurns

  /** The frame (100, 0, ""), with one channel of one IDENT. */
  const NAMED: Config := Config([Frame(0, Obname(100, 0, []), false, [Channel(19, 1)])], 0)

  const LUCKY: seq<Segment> := [Segment(0, 0, [100], []), Segment(0x40, 0, [0, 0, 1, 0], []),
                                Segment(0, 0, [0x80], []), Segment(0x40, 0, [100, 0, 0, 2, 0], [])]

  function NamedRow(n: nat): seq<Event> { [HeaderRead(0, n), CurveWritten(0, 0, Number(n), [Text([])])] }

  lemma NamedHeader(n: nat, tail: bytes)
    requires n < 0x80
    ensures DecodeHeader([100, 0, 0, n] + tail) == Got((Obname(100, 0, []), n), 4)
  {
    var b := [100, 0, 0, n] + tail;
    assert DecodeUvari(b) == Got(100, 1) && b[2..] == [0, n] + tail && b[2..][1..1] == [];
    assert DecodeIdent(b[2..]) == Got([], 1);
    assert DecodeObname(b) == Got(Obname(100, 0, []), 3);
    assert DecodeUvari(b[3..]) == Got(n, 1);
  }

  lemma LongHeader()
    ensures DecodeHeader([0x80, 100, 0, 0, 2, 0]) == Got((Obname(100, 0, []), 2), 5)
  {
    var b := [0x80, 100, 0, 0, 2, 0];
    assert DecodeUvari(b) == Got(100, 2) && b[3..] == [0, 2, 0] && b[3..][1..1] == [];
    assert DecodeIdent(b[3..]) == Got([], 1);
    assert DecodeObname(b) == Got(Obname(100, 0, []), 4);
    assert DecodeUvari(b[4..]) == Got(2, 1);
  }

  lemma EmptyText(tail: bytes)
    ensures DecodeRun(19, 1, [0] + tail) == Run([Text([])], 1)
    ensures DeliverAll([Text([])]) == [Text([])]
  {
    var b := [0] + tail;
    assert b[1..1] == [];
    assert DecodeIdent(b) == Got([], 1);
    assert DecodeValue(19, b) == Got(Text([]), 1);
    RunUnfolds(19, 1, b);
    RunUnfolds(19, 0, b[1..]);
    assert [Text([])] + [] == [Text([])];
  }

  lemma NamedCurve(n: nat)
    ensures CurveEvents(NAMED, 0, 0, Number(n), [0]) == Some([CurveWritten(0, 0, Number(n), [Text([])])])
  {
    hide DecodeRun, DeliverAll;
    EmptyText([]);
    assert [0] + [] == [0] && [0][1..] == [];
    assert CurveEvents(NAMED, 0, 1, Number(n), []) == Some([]);
    var curve := [CurveWritten(0, 0, Number(n), [Text([])])];
    assert curve + [] == curve;
    assert CurveThen(NAMED, 0, 0, Number(n), [Text([])], []) == Some(curve);
    assert NewIndex(NAMED, 0, 0, Number(n), [Text([])]) == Number(n);
  }

  lemma LuckyMeans()
    ensures TapeEvents(NAMED, LUCKY) == Some(NamedRow(1) + NamedRow(2))
  {
    hide DecodeHeader, CurveEvents, TapeEvents;
    NamedHeader(1, [0]);
    LongHeader();
    NamedCurve(1);
    NamedCurve(2);
    assert FindFrame(NAMED, Obname(100, 0, []), 0) == 0;
    var a, b := [100, 0, 0, 1] + [0], [0x80, 100, 0, 0, 2, 0];
    assert a[4..] == [0] && b[5..] == [0];
    assert RecordEvents(NAMED, [100] + [0, 0, 1, 0]) == Some(NamedRow(1)) by {
      assert [100] + [0, 0, 1, 0] == a;
      assert [HeaderRead(0, 1)] + [CurveWritten(0, 0, Number(1), [Text([])])] == NamedRow(1);
    }
    assert RecordEvents(NAMED, [0x80] + [100, 0, 0, 2, 0]) == Some(NamedRow(2)) by {
      assert [0x80] + [100, 0, 0, 2, 0] == b;
      assert [HeaderRead(0, 2)] + [CurveWritten(0, 0, Number(2), [Text([])])] == NamedRow(2);
    }
    NoNamedTape();
    TwoThen(NAMED, LUCKY[2], LUCKY[3], [], NamedRow(2));
    assert [LUCKY[2], LUCKY[3]] + [] == LUCKY[2..] && NamedRow(2) + [] == NamedRow(2);
    TwoThen(NAMED, LUCKY[0], LUCKY[1], LUCKY[2..], NamedRow(1));
    assert [LUCKY[0], LUCKY[1]] + LUCKY[2..] == LUCKY;
  }

  lemma NoNamedTape()
    ensures TapeEvents(NAMED, []) == Some([])
  {
  }

  // The bytes of the file, from each segment on.
  const FROM_FOURTH: bytes := [0, 9, 0x40, 0] + [100, 0, 0, 2, 0]
  const FROM_THIRD: bytes := [0, 5, 0, 0] + ([0x80] + FROM_FOURTH)
  const FROM_SECOND: bytes := [0, 8, 0x40, 0] + ([0, 0, 1, 0] + FROM_THIRD)
  const FROM_FIRST: bytes := [0, 5, 0, 0] + ([100] + FROM_SECOND)
  const LUCKY_FILE: bytes := [0, 31, 0xFF, 1] + FROM_FIRST

  /** Before the header of a segment, with what the last one left. */
  function AtHeader(win: bytes, vrRem: nat, attr: byte, stash: bytes, dec: Decoding, out: seq<Event>): State
  {
    State(ExpectingLrs, win, vrRem, 0, 0, attr, stash, dec, out)
  }

  const SPLICED: bytes := [100, 0, 0, 1, 0]

  lemma LuckyStart()
    ensures Loop(NAMED, State(ExpectingVr, LUCKY_FILE, 0, 0, 0, 0, [], NO_DATA, [])) ==
            Loop(NAMED, AtHeader(FROM_FIRST, 27, 0, [], NO_DATA, []))
  {
    hide Loop;
    assert LUCKY_FILE[4..] == FROM_FIRST;
    VrTurn(NAMED, State(ExpectingVr, LUCKY_FILE, 0, 0, 0, 0, [], NO_DATA, []),
           AtHeader(FROM_FIRST, 27, 0, [], NO_DATA, []));
  }

  /** The byte 100 does not make a header, and is stashed. */
  lemma LuckyFirst()
    ensures Loop(NAMED, AtHeader(FROM_FIRST, 27, 0, [], NO_DATA, [])) ==
            Loop(NAMED, AtHeader(FROM_SECOND, 22, 0, [100], NO_DATA, []))
  {
    hide Loop, DecodeHeader;
    var s := AtHeader(FROM_FIRST, 27, 0, [], NO_DATA, []);
    var t := State(ExpectingIflrHeader, [100] + FROM_SECOND, 23, 1, 0, 0, [], NO_DATA, []);
    assert FROM_FIRST[4..] == [100] + FROM_SECOND && [] + ([100] + FROM_SECOND) == [100] + FROM_SECOND;
    LrsTurn(NAMED, s, t);
    assert t.win[..1] == [100] && t.win[1..] == FROM_SECOND;
    OneByteFails();
    var u := State(ExpectingTrailing, FROM_SECOND, 22, 0, 0, 0, [100], NO_DATA, []);
    HeaderTurn(NAMED, t, u);
    assert u.win[0..] == u.win;
    TrailingTurn(NAMED, u, AtHeader(FROM_SECOND, 22, 0, [100], NO_DATA, []));
  }

  lemma OneByteFails()
    ensures DecodeHeader([100]).Fail?
  {
    assert DecodeUvari([100]) == Got(100, 1);
    assert DecodeObname([100]).Fail?;
  }

  /** With the bytes of the second segment it makes no text. */
  lemma LuckySecond()
    ensures Loop(NAMED, AtHeader(FROM_SECOND, 22, 0, [100], NO_DATA, [])) ==
            Loop(NAMED, AtHeader(FROM_THIRD, 14, 0x40, SPLICED, Decoding(0, 0, 19, 1, 0, [], Number(0)), []))
  {
    hide Loop, DecodeRun;
    var s := AtHeader(FROM_SECOND, 22, 0, [100], NO_DATA, []);
    var t := State(ExpectingIflrData, SPLICED + FROM_THIRD, 19, 5, 0, 0x40, [], NO_DATA, []);
    assert [100] + FROM_SECOND[4..] == SPLICED + FROM_THIRD;
    LrsTurn(NAMED, s, t);
    assert t.win[..5] == SPLICED && t.win[5..] == FROM_THIRD && t.win[0..] == t.win;
    NoText();
    var d := Decoding(0, 0, 19, 1, 0, [], Number(0));
    NothingTaken(NAMED, d);
    var u := State(ExpectingTrailing, FROM_THIRD, 14, 0, 0, 0x40, SPLICED, d, []);
    DataTurn(NAMED, t, u);
    assert u.win[0..] == u.win;
    TrailingTurn(NAMED, u, AtHeader(FROM_THIRD, 14, 0x40, SPLICED, d, []));
  }

  lemma NoText()
    ensures DecodeRun(19, 1, SPLICED) == NO_RUN
  {
    assert DecodeIdent(SPLICED).Fail?;
    assert DecodeValue(19, SPLICED).Fail?;
  }

  /** In front of the second record it makes the header of the first. */
  lemma LuckyThird()
    ensures Loop(NAMED, AtHeader(FROM_THIRD, 14, 0x40, SPLICED, Decoding(0, 0, 19, 1, 0, [], Number(0)), [])) ==
            Loop(NAMED, AtHeader(FROM_FOURTH, 9, 0, [], Decoding(0, 1, 19, 1, 1, [], Number(1)), NamedRow(1)))
  {
    hide Loop, DecodeHeader, DecodeRun, DeliverAll;
    var d := Decoding(0, 0, 19, 1, 0, [], Number(0));
    var s := AtHeader(FROM_THIRD, 14, 0x40, SPLICED, d, []);
    var body := [100, 0, 0, 1] + [0, 0x80];
    var t := State(ExpectingIflrHeader, body + FROM_FOURTH, 15, 6, 0, 0, [], d, []);
    assert SPLICED + FROM_THIRD[4..] == body + FROM_FOURTH;
    LrsTurn(NAMED, s, t);
    NamedHeader(1, [0, 0x80]);
    assert t.win[..6] == body && t.win[4..] == [0, 0x80] + FROM_FOURTH;
    assert FindFrame(NAMED, Obname(100, 0, []), 0) == 0;
    var u := State(ExpectingIflrData, [0, 0x80] + FROM_FOURTH, 11, 2, 0, 0, [], d.(index := Number(1)),
                   [HeaderRead(0, 1)]);
    HeaderTurn(NAMED, t, u);
    LuckyCurve(u);
  }

  lemma LuckyCurve(u: State)
    requires u == State(ExpectingIflrData, [0, 0x80] + FROM_FOURTH, 11, 2, 0, 0, [],
                        Decoding(0, 0, 19, 1, 0, [], Number(1)), [HeaderRead(0, 1)])
    ensures Loop(NAMED, u) ==
            Loop(NAMED, AtHeader(FROM_FOURTH, 9, 0, [], Decoding(0, 1, 19, 1, 1, [], Number(1)), NamedRow(1)))
  {
    hide Loop, DecodeRun, DeliverAll;
    assert u.win[..2] == [0] + [0x80] && u.win[1..] == [0x80] + FROM_FOURTH && u.win[1..][1..] == FROM_FOURTH;
    EmptyText([0x80]);
    var d := Decoding(0, 1, 19, 1, 1, [], Number(1));
    var t := State(ExpectingTrailing, FROM_FOURTH, 9, 0, 0, 0, [], d, NamedRow(1));
    assert [] + [Text([])] == [Text([])];
    DataTurn(NAMED, u, t);
    assert t.win[0..] == t.win;
    TrailingTurn(NAMED, t, AtHeader(FROM_FOURTH, 9, 0, [], t.dec, NamedRow(1)));
  }

  /** And without its first byte the header of the second record is still one. */
  lemma LuckyFourth()
    ensures Loop(NAMED, AtHeader(FROM_FOURTH, 9, 0, [], Decoding(0, 1, 19, 1, 1, [], Number(1)), NamedRow(1))) ==
            State(ExpectingVr, [], 0, 0, 0, 0x40, [], Decoding(0, 1, 19, 1, 1, [], Number(2)),
                  NamedRow(1) + NamedRow(2))
  {
    hide Loop, DecodeHeader, DecodeRun, DeliverAll, NamedRow;
    var d := Decoding(0, 1, 19, 1, 1, [], Number(1));
    var s := AtHeader(FROM_FOURTH, 9, 0, [], d, NamedRow(1));
    var body := [100, 0, 0, 2] + [0];
    var t := State(ExpectingIflrHeader, body, 5, 5, 0, 0x40, [], d, NamedRow(1));
    assert [] + FROM_FOURTH[4..] == body;
    LrsTurn(NAMED, s, t);
    NamedHeader(2, [0]);
    assert body[..5] == body && body[4..] == [0];
    assert FindFrame(NAMED, Obname(100, 0, []), 0) == 0;
    var u := State(ExpectingIflrData, [0], 1, 1, 0, 0x40, [], d.(chan := 0, index := Number(2)),
                   NamedRow(1) + [HeaderRead(0, 2)]);
    HeaderTurn(NAMED, t, u);
    LuckyEnd(u);
  }

  lemma LuckyEnd(u: State)
    requires u == State(ExpectingIflrData, [0], 1, 1, 0, 0x40, [], Decoding(0, 0, 19, 1, 1, [], Number(2)),
                        NamedRow(1) + [HeaderRead(0, 2)])
    ensures Loop(NAMED, u) ==
            State(ExpectingVr, [], 0, 0, 0, 0x40, [], Decoding(0, 1, 19, 1, 1, [], Number(2)),
                  NamedRow(1) + NamedRow(2))
  {
    hide Loop, DecodeRun, DeliverAll;
    var d := Decoding(0, 1, 19, 1, 1, [], Number(2));
    var out := NamedRow(1) + NamedRow(2);
    assert u.win[..1] == [0] + [] && u.win[1..] == [] && [] + [Text([])] == [Text([])];
    EmptyText([]);
    var t := State(ExpectingTrailing, [], 0, 0, 0, 0x40, [], d, out);
    assert (NamedRow(1) + [HeaderRead(0, 2)]) + [CurveWritten(0, 0, Number(2), [Text([])])] == out;
    DataTurn(NAMED, u, t);
    var end := t.(code := ExpectingVr);
    assert t.win[0..] == t.win;
    TrailingTurn(NAMED, t, end);
    Rests(NAMED, end);
  }

  /** The header of the first record does not end in its first segment, and still everything is reported. */
  lemma LuckyFile()
    ensures !FirstHeaderSafe(NAMED, FramesRead(NAMED), LUCKY)
    ensures TapeOk([LUCKY]) && TapeBytes([LUCKY]) == LUCKY_FILE
    ensures var t := Feed(NAMED, Begun(NAMED), LUCKY_FILE);
            BetweenRecords(NAMED, t) && TapeEvents(NAMED, LUCKY) == Some(t.out)
  {
    hide Loop, DecodeHeader, TapeEvents, TapeBytes, TapeOk;
    OneByteFails();
    LuckyMeans();
    LuckyBytes();
    assert FramesRead(NAMED) == NO_DATA && [] + LUCKY_FILE == LUCKY_FILE;
    LuckyStart();
    LuckyFirst();
    LuckySecond();
    LuckyThird();
    LuckyFourth();
  }

  lemma Before(g: Segment, gs: seq<Segment>, len: nat, b: bytes)
    requires SegmentOk(g) && SegmentsOk(gs) && SegmentsLen(gs) == len && SegmentsBytes(gs) == b
    ensures var more := [g] + gs;
            && SegmentsOk(more) && SegmentsLen(more) == SegmentLen(g) + len
            && SegmentsBytes(more) == SegmentBytes(g) + b
  {
    assert ([g] + gs)[1..] == gs;
  }

  lemma OneRecordFile(v: seq<Segment>)
    requires RecordOk(v)
    ensures TapeOk([v]) && TapeBytes([v]) == RecordBytes(v)
  {
    assert [v][1..] == [] && TapeBytes([v][1..]) == [];
  }

  lemma LuckyBytes()
    ensures TapeOk([LUCKY]) && TapeBytes([LUCKY]) == LUCKY_FILE
  {
    hide SegmentsOk, SegmentsLen, SegmentsBytes, TapeOk, TapeBytes, SegmentBytes, SegmentOk, SegmentLen;
    NoSegments();
    SegmentsWritten();
    Before(LUCKY[3], [], 0, []);
    assert [LUCKY[3]] + [] == LUCKY[3..];
    Before(LUCKY[2], LUCKY[3..], 9, FROM_FOURTH);
    assert [LUCKY[2]] + LUCKY[3..] == LUCKY[2..];
    Before(LUCKY[1], LUCKY[2..], 14, FROM_THIRD);
    assert [LUCKY[1]] + LUCKY[2..] == LUCKY[1..];
    Before(LUCKY[0], LUCKY[1..], 22, FROM_SECOND);
    assert [LUCKY[0]] + LUCKY[1..] == LUCKY;
    OneRecordFile(LUCKY);
  }

  lemma SegmentsWritten()
    ensures forall i :: 0 <= i < |LUCKY| ==> SegmentOk(LUCKY[i])
    ensures SegmentLen(LUCKY[0]) == 5 && SegmentBytes(LUCKY[0]) + FROM_SECOND == FROM_FIRST
    ensures SegmentLen(LUCKY[1]) == 8 && SegmentBytes(LUCKY[1]) + FROM_THIRD == FROM_SECOND
    ensures SegmentLen(LUCKY[2]) == 5 && SegmentBytes(LUCKY[2]) + FROM_FOURTH == FROM_THIRD
    ensures SegmentLen(LUCKY[3]) == 9 && SegmentBytes(LUCKY[3]) + [] == FROM_FOURTH
  {
    WrittenAs(LUCKY[0], [0, 5, 0, 0], FROM_SECOND);
    WrittenAs(LUCKY[1], [0, 8, 0x40, 0], FROM_THIRD);
    WrittenAs(LUCKY[2], [0, 5, 0, 0], FROM_FOURTH);
    WrittenAs(LUCKY[3], [0, 9, 0x40, 0], []);
    hide SegmentBytes;
    assert LUCKY[3].body + [] == LUCKY[3].body;
  }

  lemma WrittenAs(g: Segment, header: bytes, more: bytes)
    requires SegmentLen(g) < TWO16 && g.trailer == [] && header == WriteBE16(SegmentLen(g)) + [g.attr, g.typ]
    ensures SegmentBytes(g) + more == header + (g.body + more)
  {
  }

  lemma NoSegments()
    ensures SegmentsOk([]) && SegmentsLen([]) == 0 && SegmentsBytes([]) == []
  {
  }
}
