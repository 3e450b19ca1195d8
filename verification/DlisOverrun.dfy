/** Files for which dlis_read overruns its buffer, since it never asks whether a chunk fits.  Any value that is
    longer than the buffer does it, however the file is cut and read, so frames with ASCII channels are never safe;
    and without such channels the bound of DlisCapacity.ChunksFit cannot be improved by a single byte. */
module DlisOverrun {
  import opened Bytes
  import opened Rp66Delivery
  import opened Rp66Values
  import opened DlisMachine
  import opened DlisTape
  import opened DlisRecords
  import opened DlisFraming
  import opened DlisCapacity
  import opened DlisReader

  // ----- A value longer than the buffer -----

  /** The next value of the row is longer than a buffer. */
  predicate LongRow(c: Config, d: Decoding, L: bytes)
  {
    && HasChannel(c, d)
    && var t := LoadChannel(c, d);
       && !Fresh(t) && Readable(t.repcode)
       && DecodeValue(t.repcode, L).Got? && DecodeValue(t.repcode, L).len > DLIS_BUFF_SIZE
  }

  /** The first value of the record is. */
  predicate LongRecord(c: Config, body: bytes)
  {
    match DecodeHeader(body)
    case Fail => false
    case Got((name, number), k) =>
      var f := FindFrame(c, name, 0);
      && f >= 0 && c.frames[f].channels != []
      && var ch := c.frames[f].channels[0];
         && ch.dimension > 0 && Readable(ch.repcode)
         && DecodeValue(ch.repcode, body[k..]).Got? && DecodeValue(ch.repcode, body[k..]).len > DLIS_BUFF_SIZE
  }

  predicate Continues(gs: seq<Segment>) { gs != [] && !IsFirst(gs[0].attr) }

  /** The long value is still to come, and nothing of it has been used. */
  predicate LongAhead(c: Config, v: View)
  {
    match v.phase
    case Data => LongRow(c, v.dec, RestOfRecord(v))
    case Header => v.held != [] && Idle(v.dec) && HeaderMayCome(c, v.dec, v.held) && LongRecord(c, RestOfRecord(v))
    case Gap =>
      if Continues(v.gs) then
        if HasChannel(c, v.dec) then LongRow(c, v.dec, RestOfRecord(v))
        else v.held != [] && Idle(v.dec) && LongRecord(c, RestOfRecord(v))
      else
        && v.gs != [] && v.held == [] && Idle(v.dec)
        && v.gs[0].body != [] && HeaderMayCome(c, v.dec, v.gs[0].body)
        && LongRecord(c, v.gs[0].body + Continued(v.gs[1..]))
  }

  lemma SegmentBeginsLong(c: Config, v: View, w: View)
    requires LongAhead(c, v) && v.phase.Gap? && v.gs != []
    requires w == View(if HasChannel(c, v.dec) && !IsFirst(v.gs[0].attr) then Data else Header, v.dec,
                       v.held + v.gs[0].body, v.gs[1..])
    ensures LongAhead(c, w)
  {
    hide LongRow, LongRecord, HasChannel, DecodeHeader;
    if Continues(v.gs) {
      assert Continued(v.gs) == v.gs[0].body + Continued(v.gs[1..]);
      assert RestOfRecord(w) == RestOfRecord(v);
    } else {
      assert v.held + v.gs[0].body == v.gs[0].body;
    }
  }

  lemma HeaderOpensLong(c: Config, v: View, m: nat)
    requires LongAhead(c, v) && v.phase.Header? && m <= |v.held| && DecodeHeader(v.held[..m]).Got?
    ensures var Got((name, number), k) := DecodeHeader(v.held[..m]);
            var f := FindFrame(c, name, 0);
            && k <= m && f >= 0
            && LongAhead(c, View(Data, Opened(v.dec, f, number), v.held[k..], v.gs))
  {
    hide DecodeHeader, FindFrame, DecodeValue, Continued;
    var L := RestOfRecord(v);
    assert L[..m] == v.held[..m];
    HeaderStable(L, m);
    var k := DecodeHeader(v.held[..m]).len;
    assert L[k..] == v.held[k..] + Continued(v.gs);
  }

  lemma HeaderCutLong(c: Config, v: View)
    requires LongAhead(c, v) && v.phase.Header? && DecodeHeader(v.held).Fail?
    ensures LongAhead(c, v.(phase := Gap))
  {
    hide DecodeHeader, FindFrame, DecodeValue;
    assert v.held + [] == v.held;
  }

  /** The window never holds enough of the value. */
  lemma DataWaitsLong(c: Config, v: View, m: nat)
    requires LongAhead(c, v) && v.phase.Data? && m <= |v.held| && m <= DLIS_BUFF_SIZE
    ensures var d := LoadChannel(c, v.dec);
            && MayLoad(c, v.dec) && !Fresh(d) && Readable(d.repcode)
            && ValuesIn(d, v.held[..m]) == NO_RUN && Took(c, d, []) == d
            && LongRow(c, d, RestOfRecord(v))
    ensures |v.held| <= DLIS_BUFF_SIZE ==> Continues(v.gs)
  {
    hide DecodeValue;
    var d := LoadChannel(c, v.dec);
    var L := RestOfRecord(v);
    assert L[..m] == v.held[..m];
    ValueCut(d.repcode, L, m);
    RunUnfolds(d.repcode, d.dim - d.cnt, v.held[..m]);
    NothingTaken(c, d);
    if !Continues(v.gs) {
      assert L == v.held;
    }
  }

  /** What a turn does to a state with the long value ahead. */
  ghost predicate Keeps(c: Config, s: State, t: State, next: Cursor, tail: bytes)
  {
    && At(t, next, tail) && LongAhead(c, Viewed(t, next)) && !t.code.Stopped?
    && |t.win| + |t.stash| <= |s.win| + |s.stash|
  }

  lemma HeaderKeeps(c: Config, s: State, cur: Cursor, tail: bytes) returns (next: Cursor)
    requires At(s, cur, tail) && LongAhead(c, Viewed(s, cur)) && s.code.ExpectingIflrHeader? && s.trail >= 0
    ensures Keeps(c, s, StepHeader(c, s).s, next, tail)
  {
    hide At, DecodeHeader, FindFrame, ToCome, BodyInWindow, HasChannel, LongRow, LongRecord;
    WindowShowsBody(s, cur, tail);
    var t := StepHeader(c, s).s;
    var v := Viewed(s, cur);
    var m := Min(|cur.body|, |s.win|);
    var d := DecodeHeader(cur.body[..m]);
    if d.Got? {
      next := cur.(body := cur.body[d.len..]);
      HeaderOpensLong(c, v, m);
      SameToCome(cur, next.body);
      BodyUsed(s, t, cur, tail, d.len);
    } else if |s.win| <= |cur.body| {
      next := cur;
    } else {
      next := cur.(body := []);
      assert cur.body[..m] == cur.body;
      SameToCome(cur, []);
      HeaderCutLong(c, v);
      BodyUsed(s, t, cur, tail, |cur.body|);
    }
  }

  /** No value is there, but one is wanted. */
  lemma NothingDecoded(c: Config, s: State)
    requires s.trail >= 0 && MayLoad(c, s.dec) && s.lrsRem >= s.trail
    requires var d := LoadChannel(c, s.dec);
             !Fresh(d) && Decodable(d) && d.frame >= 0 && ValuesIn(d, BodyInWindow(s)) == NO_RUN && Took(c, d, []) == d
    ensures var t := s.(dec := LoadChannel(c, s.dec));
            && (|s.win| <= s.lrsRem ==> StepData(c, s) == Wait(t))
            && (|s.win| > s.lrsRem ==> StepData(c, s) == Go(SkipUnparsed(t).(code := ExpectingTrailing)))
  {
    hide LoadChannel, ValuesIn, Took, BodyInWindow, HasChannel, MayLoad;
    assert s.win[0..] == s.win;
  }

  /** The loop waits, with the channel loaded. */
  lemma DataStays(c: Config, s: State, cur: Cursor, tail: bytes, d: Decoding)
    requires At(s, cur, tail) && s.code.ExpectingIflrData? && LongRow(c, d, cur.body + Continued(ToCome(cur)))
    ensures Keeps(c, s, s.(dec := d), cur, tail)
  {
    hide LongRow, CursorOk, CursorBytes, TrailerOk, Continued, ToCome;
  }

  /** The whole body is stashed. */
  lemma DataSkips(c: Config, s: State, cur: Cursor, tail: bytes, d: Decoding)
    requires At(s, cur, tail) && s.code.ExpectingIflrData? && s.trail == |cur.trailer| && |s.win| >= |cur.body|
    requires s.stash == [] && s.lrsRem == |cur.body| + |cur.trailer| && BodyInWindow(s) == cur.body
    requires HasChannel(c, d) && LongRow(c, d, cur.body + Continued(ToCome(cur))) && Continues(ToCome(cur))
    ensures Keeps(c, s, SkipUnparsed(s.(dec := d)).(code := ExpectingTrailing), cur.(body := []), tail)
  {
    var t := SkipUnparsed(s.(dec := d)).(code := ExpectingTrailing);
    SameToCome(cur, []);
    SkippedBody(s, cur.body, 0, d);
    assert s.win[0..] == s.win && Consume(s, 0) == s && cur.body[0..] == cur.body && cur.body[|cur.body|..] == [];
    BodyUsed(s, t, cur, tail, |cur.body|);
    hide At, LongRow, Continued, ToCome, HasChannel, BodyInWindow;
  }

  lemma DataKeeps(c: Config, s: State, cur: Cursor, tail: bytes) returns (next: Cursor)
    requires At(s, cur, tail) && LongAhead(c, Viewed(s, cur)) && s.code.ExpectingIflrData? && s.trail >= 0
    requires |s.win| <= DLIS_BUFF_SIZE
    ensures Keeps(c, s, StepData(c, s).s, next, tail)
  {
    hide At, ToCome, BodyInWindow, HasChannel, LongRow, LongRecord, ValuesIn, Took, LoadChannel, MayLoad, Continued,
        StepData, Fresh, Keeps, SkipUnparsed, Continues;
    WindowShowsBody(s, cur, tail);
    var v := Viewed(s, cur);
    DataWaitsLong(c, v, Min(|cur.body|, |s.win|));
    LoadedLong(c, v);
    var d := LoadChannel(c, s.dec);
    NothingDecoded(c, s);
    if |s.win| <= s.lrsRem {
      next := cur;
      DataStays(c, s, cur, tail, d);
    } else {
      next := cur.(body := []);
      assert cur.body[..|cur.body|] == cur.body;
      DataSkips(c, s, cur, tail, d);
    }
  }

  lemma LoadedLong(c: Config, v: View)
    requires LongAhead(c, v) && v.phase.Data?
    ensures var d := LoadChannel(c, v.dec); HasChannel(c, d) && d.frame >= 0
  {
  }

  lemma LrsKeeps(c: Config, s: State, cur: Cursor, tail: bytes) returns (next: Cursor)
    requires At(s, cur, tail) && LongAhead(c, Viewed(s, cur)) && s.code.ExpectingLrs?
    ensures Keeps(c, s, StepLrs(c, s).s, next, tail)
  {
    hide At, StepLrs, WithTrail, LongAhead, HasChannel;
    LrsAligned(c, s, cur, tail);
    next := cur;
    if StepLrs(c, s).Go? {
      next := NextSegment(s, cur);
      NextSegmentViewed(c, s, cur, tail, StepLrs(c, s).s);
      SegmentBeginsLong(c, Viewed(s, cur), Viewed(StepLrs(c, s).s, next));
      LrsNotLonger(c, s);
      NotStopped(StepLrs(c, s).s, next, tail);
    }
  }

  lemma LrsNotLonger(c: Config, s: State)
    ensures var t := StepLrs(c, s).s; |t.win| + |t.stash| <= |s.win| + |s.stash|
  {
  }

  lemma GapKeeps(c: Config, s: State, cur: Cursor, tail: bytes) returns (next: Cursor)
    requires At(s, cur, tail) && LongAhead(c, Viewed(s, cur)) && (s.code.ExpectingVr? || s.code.ExpectingTrailing?)
    ensures Keeps(c, s, if s.code.ExpectingVr? then StepVr(s).s else StepTrailing(s).s, next, tail)
  {
    var t := if s.code.ExpectingVr? then StepVr(s).s else StepTrailing(s).s;
    next := Moved(s, t, cur);
    if s.code.ExpectingVr? {
      VrAligned(s, cur, tail);
      if StepVr(s).Go? {
        ToComeNextRecord(cur);
      }
    } else {
      TrailingAligned(s, cur, tail);
    }
    hide At, LongAhead;
  }

  lemma StepKeeps(c: Config, s: State, cur: Cursor, tail: bytes) returns (next: Cursor)
    requires At(s, cur, tail) && LongAhead(c, Viewed(s, cur)) && |s.win| <= DLIS_BUFF_SIZE
    ensures Keeps(c, s, Step(c, s).s, next, tail)
  {
    hide At, LongAhead, ToCome, StepVr, StepLrs, StepHeader, StepData, StepTrailing, WithTrail;
    NotStopped(s, cur, tail);
    TrailFound(s, cur, tail);
    var s1 := WithTrail(s);
    NotStopped(s1, cur, tail);
    next := cur;
    if s1.trail >= 0 {
      match s1.code
      case ExpectingVr => next := GapKeeps(c, s1, cur, tail);
      case ExpectingLrs => next := LrsKeeps(c, s1, cur, tail);
      case ExpectingIflrHeader => next := HeaderKeeps(c, s1, cur, tail);
      case ExpectingIflrData => next := DataKeeps(c, s1, cur, tail);
      case ExpectingTrailing => next := GapKeeps(c, s1, cur, tail);
    }
  }

  lemma {:induction false} LoopKeeps(c: Config, s: State, cur: Cursor, tail: bytes) returns (next: Cursor)
    requires At(s, cur, tail) && LongAhead(c, Viewed(s, cur)) && |s.win| + |s.stash| <= DLIS_BUFF_SIZE
    ensures Keeps(c, s, Loop(c, s), next, tail)
    decreases |s.win| + |s.stash|, Rank(s.code)
  {
    hide At, LongAhead, ToCome, Step;
    next := StepKeeps(c, s, cur, tail);
    if Step(c, s).Go? {
      StepProgress(c, s);
      next := LoopKeeps(c, Step(c, s).s, next, tail);
    }
  }

  /** The bytes of segments are at least those of their bodies. */
  lemma {:induction false} BodiesWithin(gs: seq<Segment>)
    requires SegmentsOk(gs)
    ensures |Continued(gs)| <= |SegmentsBytes(gs)|
  {
    if gs != [] {
      BodiesWithin(gs[1..]);
    }
  }

  lemma {:induction false} ContinuedJoin(a: seq<Segment>, b: seq<Segment>)
    ensures |Continued(a + b)| <= |Continued(a)| + |Continued(b)|
  {
    if a == [] {
      assert a + b == b;
    } else {
      assert (a + b)[1..] == a[1..] + b;
      ContinuedJoin(a[1..], b);
    }
  }

  lemma {:induction false} TapeHoldsBodies(vs: seq<seq<Segment>>)
    requires TapeOk(vs)
    ensures |Continued(Flatten(vs))| <= |TapeBytes(vs)|
  {
    if vs != [] {
      BodiesWithin(vs[0]);
      ContinuedJoin(vs[0], Flatten(vs[1..]));
      TapeHoldsBodies(vs[1..]);
    }
  }

  lemma AheadHoldsBodies(cur: Cursor)
    requires CursorOk(cur)
    ensures |cur.body| + |Continued(ToCome(cur))| <= |CursorBytes(cur)|
  {
    BodiesWithin(cur.segs);
    TapeHoldsBodies(cur.records);
    ContinuedJoin(cur.segs, Flatten(cur.records));
  }

  /** The first record that comes. */
  lemma NextHoldsBody(s: State, cur: Cursor)
    requires CursorOk(cur) && ToCome(cur) != []
    ensures var gs := ToCome(cur); |gs[0].body + Continued(gs[1..])| <= |CursorBytes(cur)|
  {
    if cur.segs != [] {
      var gs := ToCome(cur);
      var rest := cur.segs[1..];
      assert gs[1..] == rest + Flatten(cur.records);
      BodiesWithin(rest);
      TapeHoldsBodies(cur.records);
      ContinuedJoin(rest, Flatten(cur.records));
    } else {
      FirstOfRecords(cur.records);
      assert ToCome(cur) == Flatten(cur.records);
    }
  }

  lemma FirstOfRecords(vs: seq<seq<Segment>>)
    requires TapeOk(vs) && Flatten(vs) != []
    ensures var gs := Flatten(vs); |gs[0].body + Continued(gs[1..])| <= |TapeBytes(vs)|
  {
    assert RecordOk(vs[0]);
    var rest := vs[0][1..];
    assert Flatten(vs)[1..] == rest + Flatten(vs[1..]);
    BodiesWithin(rest);
    TapeHoldsBodies(vs[1..]);
    ContinuedJoin(rest, Flatten(vs[1..]));
  }

  /** What is unread, stashed and to come is more than a buffer holds. */
  lemma LongLeft(c: Config, s: State, cur: Cursor, tail: bytes)
    requires At(s, cur, tail) && LongAhead(c, Viewed(s, cur))
    ensures |s.win| + |s.stash| + |tail| > DLIS_BUFF_SIZE
  {
    hide DecodeValue, DecodeHeader, FindFrame, CursorBytes, TrailerOk;
    assert |s.win + tail| == |s.win| + |tail|;
    AheadHoldsBodies(cur);
    var v := Viewed(s, cur);
    if v.phase.Gap? && !Continues(v.gs) {
      NextHoldsBody(s, cur);
    }
  }

  lemma LongAppend(c: Config, s: State, cur: Cursor, chunk: bytes, tail: bytes)
    requires At(s, cur, chunk + tail) && LongAhead(c, Viewed(s, cur))
    ensures At(Append(s, chunk), cur, tail) && LongAhead(c, Viewed(Append(s, chunk), cur))
  {
    hide LongAhead, ToCome, SegmentsOk, TapeOk, CursorBytes, TrailerOk, SegmentsLen;
    assert (s.win + chunk) + tail == s.win + (chunk + tail);
  }

  lemma {:induction false} LongOverruns(c: Config, s: State, cur: Cursor, chunks: seq<bytes>)
    requires At(s, cur, Joined(chunks)) && LongAhead(c, Viewed(s, cur))
    requires |s.win| + |s.stash| <= DLIS_BUFF_SIZE
    ensures !FitsAll(c, s, chunks)
    decreases |chunks|
  {
    hide At, LongAhead, ToCome, Loop;
    NotStopped(s, cur, Joined(chunks));
    LongLeft(c, s, cur, Joined(chunks));
    if chunks != [] && |s.win| + |s.stash| + |chunks[0]| <= DLIS_BUFF_SIZE {
      var tail := Joined(chunks[1..]);
      LongAppend(c, s, cur, chunks[0], tail);
      var next := cur;
      if s.win + chunks[0] != [] {
        next := LoopKeeps(c, Append(s, chunks[0]), cur, tail);
      } else {
        assert Append(s, chunks[0]) == s;
      }
      LongOverruns(c, Feed(c, s, chunks[0]), next, chunks[1..]);
    }
  }

  /** A file whose first value is longer than a buffer overruns one, however it is cut, and in whatever chunks it is
      read. */
  lemma LongValueOverruns(c: Config, s: State, vs: seq<seq<Segment>>, chunks: seq<bytes>)
    requires TapeOk(vs) && BetweenRecords(c, s) && Joined(chunks) == TapeBytes(vs)
    requires Flatten(vs) != [] && IsFirst(Flatten(vs)[0].attr) && Flatten(vs)[0].body != []
    requires FirstHeaderSafe(c, s.dec, Flatten(vs))
    requires LongRecord(c, Flatten(vs)[0].body + Continued(Flatten(vs)[1..]))
    ensures !FitsAll(c, s, chunks)
  {
    hide LongRecord, HasChannel, DecodeHeader;
    assert ToCome(Start(vs)) == Flatten(vs);
    assert ([] + []) + ([] + TapeBytes(vs)) == TapeBytes(vs);
    LongOverruns(c, s, Start(vs), chunks);
  }

  // ----- Files and chunks of any sizes -----

  function Pieces(b: bytes, p: nat): (ps: seq<bytes>)
    requires p > 0
    ensures Joined(ps) == b
    ensures forall i :: 0 <= i < |ps| ==> 0 < |ps[i]| <= p
  {
    if b == [] then []
    else if |b| <= p then
      assert [b][1..] == [];
      [b]
    else
      var rest := Pieces(b[p..], p);
      assert ([b[..p]] + rest)[1..] == rest;
      [b[..p]] + rest
  }

  /** Each piece in a segment, and each segment in a visible record. */
  function Records(attr: byte, ps: seq<bytes>): (vs: seq<seq<Segment>>)
    ensures |vs| == |ps|
    ensures forall i :: 0 <= i < |vs| ==> vs[i] == [Segment(if i == 0 then attr else 0x40, 0, ps[i], [])]
  {
    seq(|ps|, i requires 0 <= i < |ps| => [Segment(if i == 0 then attr else 0x40, 0, ps[i], [])])
  }

  lemma OneSegment(g: Segment)
    requires SegmentOk(g) && 4 + SegmentLen(g) < TWO16
    ensures RecordOk([g]) && SegmentsLen([g]) == SegmentLen(g)
  {
    assert [g][1..] == [];
    assert SegmentsLen([g][1..]) == 0;
  }

  /** The segments of a record, one behind the other. */
  lemma {:induction false} RecordsFlat(attr: byte, ps: seq<bytes>, p: nat)
    requires attr in {0, 0x40} && p < 0xFFF8 && forall i :: 0 <= i < |ps| ==> 0 < |ps[i]| <= p
    ensures var vs := Records(attr, ps);
            var gs := Flatten(vs);
            && TapeOk(vs) && |gs| == |ps|
            && (forall i :: 0 <= i < |gs| ==> gs[i] == Segment(if i == 0 then attr else 0x40, 0, ps[i], []))
            && (attr == 0x40 ==> Continued(gs) == Joined(ps) && Beyond(gs) == [])
    decreases |ps|
  {
    var vs := Records(attr, ps);
    forall i | 0 <= i < |vs| ensures RecordOk(vs[i]) {
      OneSegment(vs[i][0]);
    }
    if ps != [] {
      RecordsFlat(0x40, ps[1..], p);
      assert vs[1..] == Records(0x40, ps[1..]);
      assert Flatten(vs) == vs[0] + Flatten(vs[1..]);
      assert Flatten(vs)[1..] == Flatten(vs[1..]);
    }
  }

  // ----- ASCII -----

  /** One frame without a name, with one ASCII channel. */
  const ASCII: Config := Config([Frame(0, Obname(0, 0, []), false, [Channel(20, 1)])], 0)

  /** Row 1 of the frame, with this text. */
  function TextRecord(t: bytes): bytes
    requires |t| < 0x4000_0000
  {
    [0, 0, 0, 1] + EncodeAscii(t)
  }

  lemma RowHeader(tail: bytes)
    ensures DecodeHeader([0, 0, 0, 1] + tail) == Got((Obname(0, 0, []), 1), 4)
  {
    var b := [0, 0, 0, 1] + tail;
    assert DecodeUvari(b) == Got(0, 1) && b[2..] == [0, 1] + tail;
    assert DecodeIdent(b[2..]) == Got([], 1) by {
      assert b[2..][1..1] == [];
    }
    assert DecodeObname(b) == Got(Obname(0, 0, []), 3);
    assert DecodeUvari(b[3..]) == Got(1, 1);
  }

  lemma TextIsLong(t: bytes)
    requires DLIS_BUFF_SIZE <= |t| < 0x4000_0000
    ensures LongRecord(ASCII, TextRecord(t))
    ensures RecordEvents(ASCII, TextRecord(t)).Some?
  {
    hide DecodeHeader, DecodeAscii, EncodeAscii;
    var b := TextRecord(t);
    RowHeader(EncodeAscii(t));
    assert b[4..] == EncodeAscii(t);
    AsciiRoundTrip(t, []);
    assert EncodeAscii(t) + [] == EncodeAscii(t) && |EncodeAscii(t)| > |t| by {
      AsciiIsLonger(t);
    }
    var v := DecodeValue(20, b[4..]);
    assert v == Got(Text(Clip(t)), |EncodeAscii(t)|);
    assert FindFrame(ASCII, Obname(0, 0, []), 0) == 0;
    RunUnfolds(20, 1, b[4..]);
    RunUnfolds(20, 0, b[4..][v.len..]);
    var run := DecodeRun(20, 1, b[4..]);
    assert run == Run([v.value] + [], v.len + 0);
    assert b[4..][run.len..] == [];
    var index := NewIndex(ASCII, 0, 0, Number(1), run.values);
    assert CurveEvents(ASCII, 0, 1, index, []) == Some([]);
    assert CurveThen(ASCII, 0, 0, index, DeliverAll(run.values), []).Some?;
  }

  lemma AsciiIsLonger(t: bytes)
    requires |t| < 0x4000_0000
    ensures |EncodeAscii(t)| > |t|
  {
  }

  /** A record in pieces. */
  lemma PiecesFlat(b: bytes, p: nat)
    requires b != [] && 0 < p < 0xFFF8
    ensures var vs := Records(0, Pieces(b, p));
            var gs := Flatten(vs);
            && TapeOk(vs) && gs != [] && SegmentsWithin(gs, p + 4) && EndsFull(gs)
            && gs[0].body == Pieces(b, p)[0] && IsFirst(gs[0].attr)
            && gs[0].body + Continued(gs[1..]) == b && Beyond(gs[1..]) == []
  {
    var ps := Pieces(b, p);
    var vs := Records(0, ps);
    RecordsFlat(0, ps, p);
    assert ps != [];
    RecordsFlat(0x40, ps[1..], p);
    assert vs[1..] == Records(0x40, ps[1..]);
    assert Flatten(vs)[1..] == Flatten(vs[1..]);
  }

  /** However short the segments and the chunks are, there is a file with one text, well formed and cut in no
      dangerous place, that overruns a buffer. */
  lemma AsciiNeverSafe(m: nat, n: nat) returns (vs: seq<seq<Segment>>, chunks: seq<bytes>)
    requires 8 <= m < 0xFFFC && n >= 1
    ensures TapeOk(vs) && SegmentsWithin(Flatten(vs), m) && EndsFull(Flatten(vs))
    ensures TapeEvents(ASCII, Flatten(vs)).Some? && FirstHeaderSafe(ASCII, FramesRead(ASCII), Flatten(vs))
    ensures Joined(chunks) == TapeBytes(vs) && forall i :: 0 <= i < |chunks| ==> |chunks[i]| <= n
    ensures !FitsAll(ASCII, Begun(ASCII), chunks)
  {
    var t := seq(DLIS_BUFF_SIZE, i => 65);
    var b := TextRecord(t);
    TextIsLong(t);
    PiecesFlat(b, m - 4);
    FirstPieceHasHeader(b, m - 4);
    vs := Records(0, Pieces(b, m - 4));
    chunks := Pieces(TapeBytes(vs), n);
    var gs := Flatten(vs);
    assert TapeEvents(ASCII, []) == Some([]);
    hide RecordEvents, DecodeHeader, LongRecord, HasChannel, EncodeAscii, Records, Pieces, Flatten, TapeOk, Continued,
        SegmentsWithin, EndsFull, TapeBytes;
    LongValueOverruns(ASCII, Begun(ASCII), vs, chunks);
  }

  lemma FirstPieceHasHeader(b: bytes, p: nat)
    requires p >= 4 && |b| > 4 && b[..4] == [0, 0, 0, 1]
    ensures var ps := Pieces(b, p); ps != [] && DecodeHeader(ps[0]).Got?
  {
    var first := Pieces(b, p)[0];
    assert first == [0, 0, 0, 1] + first[4..];
    RowHeader(first[4..]);
  }
}
