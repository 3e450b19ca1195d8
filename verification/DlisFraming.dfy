/** The parser decodes frame data as if the records had never been cut.  A state at a place of the tape
    stands for the events it has produced and those the rest of the tape holds, and no turn changes that
    sum.  Empty segments at the ends of records are what may keep it from the end of the file: which of them
    costs events, and which crashes the program, is exactly known. */
module DlisFraming {
  import opened Bytes
  import opened Rp66Delivery
  import opened Rp66Values
  import opened DlisMachine
  import opened DlisTape
  import opened DlisRecords

  // ----- What a state stands for -----

  datatype Phase = Gap | Header | Data

  function PhaseOf(code: Code): Phase
  {
    match code
    case ExpectingIflrHeader => Header
    case ExpectingIflrData => Data
    case _ => Gap
  }

  /** What matters of a state at a place: what it is decoding, the bytes it holds of the segment, and the
      segments to come.  Between segments those bytes are the stash, inside them the rest of the body. */
  datatype View = View(phase: Phase, dec: Decoding, held: bytes, gs: seq<Segment>)

  function Held(s: State, cur: Cursor): bytes
  {
    if PhaseOf(s.code).Gap? then s.stash else cur.body
  }

  function Viewed(s: State, cur: Cursor): View
  {
    View(PhaseOf(s.code), s.dec, Held(s, cur), ToCome(cur))
  }

  /** The bytes of the record at hand that are still to be decoded. */
  function RestOfRecord(v: View): bytes { v.held + Continued(v.gs) }

  predicate Idle(d: Decoding) { Fresh(d) && d.values == [] }

  /** A header may be cut only while the parser has no current channel: otherwise the next segment is
      taken for data.  That is so from the first record on, but not always before it. */
  predicate HeaderMayCome(c: Config, d: Decoding, body: bytes)
  {
    !HasChannel(c, d) || DecodeHeader(body).Got?
  }

  predicate InRow(c: Config, v: View)
  {
    Clean(v.dec) && Pending(c, v.dec, RestOfRecord(v)).Some?
  }

  predicate InHeader(c: Config, v: View)
  {
    Idle(v.dec) && v.held != [] && HeaderMayCome(c, v.dec, v.held) && RecordEvents(c, RestOfRecord(v)).Some?
  }

  /** Between segments, within a row or within a header. */
  predicate Cut(c: Config, v: View)
  {
    && Continued(v.gs) != []
    && if HasChannel(c, v.dec) then InRow(c, v) else InHeader(c, v) && DecodeHeader(v.held).Fail?
  }

  /** Between records; empty segments of the last record may still come. */
  predicate Ready(c: Config, v: View)
  {
    && v.held == [] && Idle(v.dec) && Continued(v.gs) == []
    && (v.gs != [] ==> HeaderMayCome(c, v.dec, v.gs[0].body) && (HasChannel(c, v.dec) ==> IsFirst(v.gs[0].attr)))
  }

  /** A header is looked for in a segment without a body: before its record, or behind it. */
  predicate NoHeader(c: Config, v: View)
  {
    && v.held == [] && Idle(v.dec) && !HasChannel(c, v.dec)
    && (Continued(v.gs) != [] ==> RecordEvents(c, Continued(v.gs)).Some?)
  }

  predicate Stands(c: Config, v: View)
  {
    && TapeEvents(c, Beyond(v.gs)).Some?
    && match v.phase
       case Gap => Cut(c, v) || Ready(c, v)
       case Header => InHeader(c, v) || NoHeader(c, v)
       case Data => InRow(c, v)
  }

  /** What is left of the record at hand. */
  function RecordLeft(c: Config, v: View): seq<Event>
  {
    if v.phase.Data? || (v.phase.Gap? && HasChannel(c, v.dec)) then Events(Pending(c, v.dec, RestOfRecord(v)))
    else Events(RecordEvents(c, RestOfRecord(v)))
  }

  /** Everything the rest of the tape holds. */
  function Left(c: Config, v: View): seq<Event>
  {
    (if v.phase.Gap? && Ready(c, v) then [] else RecordLeft(c, v)) + Events(TapeEvents(c, Beyond(v.gs)))
  }

  /** No empty segment begins or ends a record from here on. */
  predicate Good(v: View)
  {
    EndsFull(v.gs) && (v.phase.Header? ==> v.held != [])
  }

  /** No empty segment from here on is followed by what would then be lost. */
  predicate Fine(v: View)
  {
    FollowedFull(v.gs) && (v.phase.Header? && v.held == [] ==> Continued(v.gs) == [] && Beyond(v.gs) == [])
  }

  /** A turn from v to w that produces these events. */
  predicate Produces(c: Config, v: View, w: View, events: seq<Event>)
  {
    && Stands(c, w)
    && Good(w) == Good(v) && Fine(w) == Fine(v)
    && Left(c, v) == events + Left(c, w)
  }

  // ----- Between segments -----

  lemma EmptyHeaderFails()
    ensures DecodeHeader([]).Fail?
  {
  }

  /** The three ways a segment can begin: with data, with a cut header, or with a new record. */
  lemma SegmentBegins(c: Config, v: View, w: View)
    requires Stands(c, v) && v.phase.Gap? && v.gs != []
    requires w == View(if HasChannel(c, v.dec) && !IsFirst(v.gs[0].attr) then Data else Header, v.dec,
                       v.held + v.gs[0].body, v.gs[1..])
    ensures Produces(c, v, w, [])
  {
    var g := v.gs[0];
    EmptyHeaderFails();
    EndsFullUnfolds(v.gs);
    if IsFirst(g.attr) {
      assert v.held + g.body == g.body;
      RecordBegins(c, v, w);
    } else {
      RecordContinues(c, v, w);
    }
  }

  lemma Unfolds(gs: seq<Segment>)
    requires gs != [] && !IsFirst(gs[0].attr)
    ensures Continued(gs) == gs[0].body + Continued(gs[1..]) && Beyond(gs) == Beyond(gs[1..])
    ensures EndsFull(gs) <==> (EndsRecord(gs, 0) ==> gs[0].body != []) && EndsFull(gs[1..])
    ensures EndsRecord(gs, 0) ==> Continued(gs[1..]) == []
    ensures Continued(gs) == [] ==> !EndsFull(gs)
    ensures Continued(gs) != [] ==> (FollowedFull(gs) <==> FollowedFull(gs[1..]))
    ensures Continued(gs) == [] ==>
              (FollowedFull(gs) <==> FollowedFull(gs[1..]) && Continued(gs[1..]) == [] && Beyond(gs[1..]) == [])
  {
    EndsFullUnfolds(gs);
    FollowedFullUnfolds(gs);
    if Continued(gs) == [] {
      NothingContinued(gs);
      NothingFollows(gs);
    }
  }

  lemma EmptyRecordFails(c: Config)
    ensures RecordEvents(c, []).None?
  {
  }

  lemma RecordContinues(c: Config, v: View, w: View)
    requires Stands(c, v) && v.phase.Gap? && v.gs != [] && !IsFirst(v.gs[0].attr)
    requires w == View(if HasChannel(c, v.dec) then Data else Header, v.dec, v.held + v.gs[0].body, v.gs[1..])
    ensures Produces(c, v, w, [])
  {
    EmptyRecordFails(c);
    hide DecodeHeader, RecordEvents, Pending, EndsFull, FollowedFull, TapeEvents, Continued, Beyond, EndsRecord;
    Unfolds(v.gs);
    assert RestOfRecord(w) == RestOfRecord(v);
    assert [] + Left(c, w) == Left(c, w);
  }

  lemma FirstUnfolds(c: Config, gs: seq<Segment>)
    requires gs != [] && IsFirst(gs[0].attr)
    ensures Continued(gs) == [] && Beyond(gs) == gs
    ensures EndsFull(gs) <==> gs[0].body != [] && EndsFull(gs[1..])
    ensures FollowedFull(gs) <==> gs[0].body != [] && FollowedFull(gs[1..])
    ensures var body := gs[0].body + Continued(gs[1..]);
            TapeEvents(c, gs).Some? ==>
              && RecordEvents(c, body).Some? && TapeEvents(c, Beyond(gs[1..])).Some?
              && Events(TapeEvents(c, gs)) == Events(RecordEvents(c, body)) + Events(TapeEvents(c, Beyond(gs[1..])))
  {
    EndsFullUnfolds(gs);
    FollowedFullUnfolds(gs);
    hide RecordEvents;
  }

  lemma RecordBegins(c: Config, v: View, w: View)
    requires Stands(c, v) && v.phase.Gap? && v.gs != [] && IsFirst(v.gs[0].attr) && DecodeHeader([]).Fail?
    requires w == View(Header, v.dec, v.gs[0].body, v.gs[1..])
    ensures Produces(c, v, w, [])
  {
    EmptyRecordFails(c);
    hide DecodeHeader, RecordEvents, Pending, EndsFull, FollowedFull, TapeEvents, Continued, Beyond;
    FirstUnfolds(c, v.gs);
    assert [] + Continued(v.gs[1..]) == Continued(v.gs[1..]);
    assert [] + Left(c, w) == Left(c, w);
    assert [] + Events(TapeEvents(c, v.gs)) == Events(TapeEvents(c, v.gs));
  }

  // ----- Headers -----

  /** A header decodes from the first m bytes of the body. */
  lemma HeaderOpens(c: Config, v: View, m: nat)
    requires Stands(c, v) && v.phase.Header? && m <= |v.held| && DecodeHeader(v.held[..m]).Got?
    ensures var Got((name, number), k) := DecodeHeader(v.held[..m]);
            var f := FindFrame(c, name, 0);
            && k <= m && f >= 0
            && Produces(c, v, View(Data, Opened(v.dec, f, number), v.held[k..], v.gs), [HeaderRead(f, number)])
  {
    EmptyHeaderFails();
    hide DecodeHeader, RecordEvents, Pending, EndsFull, FollowedFull, TapeEvents, Continued, Beyond, FindFrame;
    var Got((name, number), k) := DecodeHeader(v.held[..m]);
    var f := FindFrame(c, name, 0);
    assert v.held != [];
    RecordOpens(c, v.dec, v.held, Continued(v.gs), m);
    var es := Events(Pending(c, Opened(v.dec, f, number), v.held[k..] + Continued(v.gs)));
    var after := Events(TapeEvents(c, Beyond(v.gs)));
    assert ([HeaderRead(f, number)] + es) + after == [HeaderRead(f, number)] + (es + after);
  }

  /** A header that the segment cuts is stashed. */
  lemma HeaderStashed(c: Config, v: View)
    requires Stands(c, v) && v.phase.Header? && v.held != [] && DecodeHeader(v.held).Fail?
    ensures Produces(c, v, v.(phase := Gap), [])
  {
    hide DecodeHeader, RecordEvents, Pending, EndsFull, FollowedFull, TapeEvents, Continued, Beyond;
    HeaderNeedsMore(c, v);
    var w := v.(phase := Gap);
    assert [] + Left(c, w) == Left(c, w);
  }

  lemma HeaderNeedsMore(c: Config, v: View)
    requires InHeader(c, v) && DecodeHeader(v.held).Fail?
    ensures Continued(v.gs) != []
  {
    hide DecodeHeader;
    assert v.held + [] == v.held;
  }

  // ----- Rows -----

  /** The values of a channel are complete, after all but rest of the bytes held. */
  lemma CurveComplete(c: Config, v: View, d: Decoding, rest: bytes, w: View)
    requires Stands(c, v) && v.phase.Data?
    requires HasChannel(c, d) && Fresh(d)
    requires Pending(c, v.dec, RestOfRecord(v)) ==
             CurveThen(c, d.frame, d.chan, d.index, d.values, rest + Continued(v.gs))
    requires w == View(if rest == [] then Gap else Data, NextChannel(d), rest, v.gs)
    ensures rest != [] ==> HasChannel(c, w.dec)
    ensures Produces(c, v, w, [Curve(d)])
  {
    hide Pending, CurveThen, DecodeHeader, RecordEvents, EndsFull, FollowedFull, TapeEvents, Continued, Beyond;
    CurvePending(c, d, rest + Continued(v.gs));
    var es := Events(Pending(c, w.dec, RestOfRecord(w)));
    var after := Events(TapeEvents(c, Beyond(v.gs)));
    assert ([Curve(d)] + es) + after == [Curve(d)] + (es + after);
    if !HasChannel(c, w.dec) {
      NoChannelNothing(c, w.dec, RestOfRecord(w));
    }
  }

  lemma NoChannelNothing(c: Config, d: Decoding, L: bytes)
    requires !HasChannel(c, d)
    ensures Events(Pending(c, d, L)) == []
  {
  }

  /** Values are missing: bytes are awaited, or the segment is left with a stash. */
  lemma CurveIncomplete(c: Config, v: View, d: Decoding, rest: bytes, w: View)
    requires Stands(c, v) && v.phase.Data?
    requires HasChannel(c, d) && !Fresh(d)
    requires Pending(c, v.dec, RestOfRecord(v)) == Pending(c, d, rest + Continued(v.gs))
    requires w == View(w.phase, d, rest, v.gs) && !w.phase.Header? && (w.phase.Gap? ==> Continued(v.gs) != [])
    ensures Produces(c, v, w, [])
  {
    hide Pending, DecodeHeader, RecordEvents, EndsFull, FollowedFull, TapeEvents, Continued, Beyond;
    assert [] + Left(c, w) == Left(c, w);
  }

  /** What parse_iflr_data takes out of a body of which m bytes are in the window. */
  lemma DataTaken(c: Config, v: View, m: nat)
    requires Stands(c, v) && v.phase.Data? && m <= |v.held|
    ensures HasChannel(c, v.dec)
    ensures var d := LoadChannel(c, v.dec);
            && !Fresh(d) && Readable(d.repcode)
            && var r := ValuesIn(d, v.held[..m]);
            && r.len <= m
            && var t := Took(c, d, r.values);
            && HasChannel(c, t) && t.dim > 0 && MayLoad(c, v.dec)
            && var rest := v.held[r.len..] + Continued(v.gs);
            && (if Fresh(t) then
                  Pending(c, v.dec, RestOfRecord(v)) == CurveThen(c, t.frame, t.chan, t.index, t.values, rest)
                else
                  m < |RestOfRecord(v)| && Pending(c, t, rest) == Pending(c, v.dec, RestOfRecord(v)))
  {
    hide DecodeHeader, RecordEvents, EndsFull, TapeEvents, Continued, Beyond, DecodeRun, CurveEvents, CurveThen,
        NewIndex, ValuesIn;
    var L := RestOfRecord(v);
    LoadPending(c, v.dec, L);
    var d := LoadChannel(c, v.dec);
    assert L[..m] == v.held[..m];
    TakePending(c, d, L, m);
    var r := ValuesIn(d, v.held[..m]);
    assert L[r.len..] == v.held[r.len..] + Continued(v.gs);
  }

  // ----- The turns -----

  ghost predicate Faithful(c: Config, s: State, cur: Cursor, tail: bytes)
  {
    At(s, cur, tail) && Stands(c, Viewed(s, cur))
  }

  /** Everything the state has produced, and everything the rest of the tape holds. */
  function Total(c: Config, s: State, cur: Cursor): seq<Event>
  {
    s.out + Left(c, Viewed(s, cur))
  }

  /** The program has left the model, or its next turn takes a curve to a channel that is not there: on_iflr_data
      reads through a null pointer. */
  predicate Doomed(c: Config, s: State)
  {
    s.code.Stopped? || (s.code.ExpectingIflrData? && !HasChannel(c, s.dec))
  }

  /** If a header is looked for where there is none, no byte comes after it. */
  predicate Survives(s: State, cur: Cursor)
  {
    EndsBare(ToCome(cur)) && (s.code.ExpectingIflrHeader? && cur.body == [] ==> cur.trailer == [] && ToCome(cur) == [])
  }

  /** What a turn from s, at cur, to t, at next, may do. */
  ghost predicate Follows(c: Config, s: State, cur: Cursor, t: State, next: Cursor, tail: bytes)
  {
    if Doomed(c, t) then
      !Good(Viewed(s, cur)) && !Survives(s, cur) && (Fine(Viewed(s, cur)) <==> t.out == Total(c, s, cur))
    else
      && Faithful(c, t, next, tail)
      && Good(Viewed(t, next)) == Good(Viewed(s, cur))
      && Fine(Viewed(t, next)) == Fine(Viewed(s, cur))
      && Survives(t, next) == Survives(s, cur)
      && Total(c, t, next) == Total(c, s, cur)
  }

  lemma NotStopped(s: State, cur: Cursor, tail: bytes)
    requires At(s, cur, tail)
    ensures !s.code.Stopped?
  {
  }

  lemma Followed(c: Config, s: State, cur: Cursor, t: State, next: Cursor, tail: bytes, events: seq<Event>)
    requires At(t, next, tail) && Survives(t, next) == Survives(s, cur)
    requires Produces(c, Viewed(s, cur), Viewed(t, next), events)
    requires t.code.ExpectingIflrData? ==> HasChannel(c, t.dec)
    requires t.out == s.out + events
    ensures Follows(c, s, cur, t, next, tail)
  {
    hide At, Good, Fine, Survives, Left, Stands, HasChannel;
    NotStopped(t, next, tail);
    var w := Viewed(t, next);
    assert s.out + (events + Left(c, w)) == (s.out + events) + Left(c, w);
  }

  /** A turn after which the state stands for exactly what it stood for. */
  lemma Unchanged(c: Config, s: State, cur: Cursor, t: State, tail: bytes)
    requires Faithful(c, s, cur, tail) && At(t, cur, tail)
    requires Viewed(t, cur) == Viewed(s, cur) && t.out == s.out && t.code == s.code
    ensures Follows(c, s, cur, t, cur, tail)
  {
    DataHasChannel(c, s, cur);
    hide At, Good, Fine, Left, Stands, ToCome, HasChannel;
    var v := Viewed(s, cur);
    assert [] + Left(c, v) == Left(c, v) && s.out + [] == s.out;
    assert t.dec == s.dec;
    Followed(c, s, cur, t, cur, tail, []);
  }

  lemma DataHasChannel(c: Config, s: State, cur: Cursor)
    requires Stands(c, Viewed(s, cur))
    ensures s.code.ExpectingIflrData? ==> HasChannel(c, s.dec)
  {
    hide RecordEvents, TapeEvents, CurveEvents, CurveThen, DecodeRun;
  }

  lemma VrFollows(c: Config, s: State, cur: Cursor, tail: bytes) returns (next: Cursor)
    requires Faithful(c, s, cur, tail) && s.code.ExpectingVr?
    ensures Follows(c, s, cur, StepVr(s).s, next, tail)
    ensures StepVr(s).Wait? && tail == [] ==> StepVr(s).s == s && s.win == [] && next == Start([])
  {
    hide Stands, Good, Fine, Survives, Left;
    VrAligned(s, cur, tail);
    var t := StepVr(s).s;
    if StepVr(s).Wait? {
      next := cur;
      Unchanged(c, s, cur, t, tail);
    } else {
      next := Moved(s, t, cur);
      ToComeNextRecord(cur);
      Between(c, s, cur, t, next, tail);
    }
  }

  lemma ToComeNextRecord(cur: Cursor)
    requires cur.segs == [] && cur.records != []
    ensures ToCome(Cursor([], [], cur.records[0], cur.records[1..])) == ToCome(cur)
  {
    assert [] + Flatten(cur.records) == Flatten(cur.records);
  }

  /** Turns that only move on from one gap to the next. */
  lemma Between(c: Config, s: State, cur: Cursor, t: State, next: Cursor, tail: bytes)
    requires Faithful(c, s, cur, tail) && At(t, next, tail)
    requires PhaseOf(s.code).Gap? && PhaseOf(t.code).Gap?
    requires t.dec == s.dec && t.stash == s.stash && t.out == s.out && ToCome(next) == ToCome(cur)
    ensures Follows(c, s, cur, t, next, tail)
  {
    hide At, Good, Fine, Left, Stands, ToCome, EndsBare;
    var v := Viewed(s, cur);
    assert [] + Left(c, v) == Left(c, v) && s.out + [] == s.out;
    Followed(c, s, cur, t, next, tail, []);
  }

  lemma TrailingFollows(c: Config, s: State, cur: Cursor, tail: bytes) returns (next: Cursor)
    requires Faithful(c, s, cur, tail) && s.code.ExpectingTrailing?
    ensures Follows(c, s, cur, StepTrailing(s).s, next, tail)
    ensures StepTrailing(s).Wait? ==> tail != []
  {
    hide Stands, Good, Fine, Survives, Left, At;
    TrailingAligned(s, cur, tail);
    var t := StepTrailing(s).s;
    next := Moved(s, t, cur);
    Between(c, s, cur, t, next, tail);
  }

  lemma LrsFollows(c: Config, s: State, cur: Cursor, tail: bytes) returns (next: Cursor)
    requires Faithful(c, s, cur, tail) && s.code.ExpectingLrs?
    ensures Follows(c, s, cur, StepLrs(c, s).s, next, tail)
    ensures StepLrs(c, s).Wait? ==> tail != []
  {
    hide Stands, Good, Fine, Survives, Left, StepLrs, At, WithTrail;
    LrsAligned(c, s, cur, tail);
    var t := StepLrs(c, s).s;
    if StepLrs(c, s).Wait? {
      next := cur;
      Unchanged(c, s, cur, t, tail);
    } else {
      next := NextSegment(s, cur);
      NextSegmentViewed(c, s, cur, tail, t);
      SegmentBegins(c, Viewed(s, cur), Viewed(t, next));
      SegmentSurvives(c, s, cur, t);
      assert s.out + [] == s.out;
      Followed(c, s, cur, t, next, tail, []);
    }
  }

  lemma NextSegmentViewed(c: Config, s: State, cur: Cursor, tail: bytes, t: State)
    requires At(s, cur, tail) && s.code.ExpectingLrs?
    requires t.dec == s.dec && t.code == AfterLrs(c, s.(attr := cur.segs[0].attr), cur.segs[0].typ)
    ensures var v := Viewed(s, cur);
            && v.phase.Gap? && v.gs != [] && v.gs[0] == cur.segs[0]
            && Viewed(t, NextSegment(s, cur)) ==
               View(if HasChannel(c, v.dec) && !IsFirst(v.gs[0].attr) then Data else Header, v.dec,
                    v.held + v.gs[0].body, v.gs[1..])
    ensures t.code.ExpectingIflrData? ==> HasChannel(c, t.dec)
  {
    assert SegmentOk(cur.segs[0]);
    var next := NextSegment(s, cur);
    assert ToCome(cur) == [cur.segs[0]] + ToCome(next);
  }

  /** Whether a segment that comes next is one without a header to be found, with something behind it. */
  lemma SegmentSurvives(c: Config, s: State, cur: Cursor, t: State)
    requires Stands(c, Viewed(s, cur)) && s.code.ExpectingLrs? && cur.segs != []
    requires var v := Viewed(s, cur);
             && v.gs != [] && v.gs[0] == cur.segs[0]
             && Viewed(t, NextSegment(s, cur)) ==
                View(if HasChannel(c, v.dec) && !IsFirst(v.gs[0].attr) then Data else Header, v.dec,
                     v.held + v.gs[0].body, v.gs[1..])
    ensures Survives(t, NextSegment(s, cur)) == Survives(s, cur)
  {
    var v := Viewed(s, cur);
    if IsFirst(v.gs[0].attr) {
      EndsBareFirst(v.gs);
      EmptyRecordFails(c);
      FirstUnfolds(c, v.gs);
      hide RecordEvents, TapeEvents, DecodeHeader, Pending, EndsBare, ToCome;
      assert [] + Continued([]) == [];
    } else if Continued(v.gs) != [] {
      EndsBareContinued(v.gs);
      hide RecordEvents, TapeEvents, DecodeHeader, Pending, EndsBare, ToCome, Continued;
    } else {
      EndsBareNothing(v.gs);
      EndsBareEmpty();
      hide RecordEvents, TapeEvents, DecodeHeader, Pending, EndsBare, ToCome;
      assert v.gs[0].body == [] && [] + [] == v.gs[0].body;
      assert |v.gs| == 1 <==> v.gs[1..] == [];
    }
  }

  lemma EndsBareEmpty()
    ensures EndsBare([])
  {
  }

  /** The body that the window shows is a prefix of the body of the segment. */
  lemma WindowShowsBody(s: State, cur: Cursor, tail: bytes)
    requires At(s, cur, tail) && s.trail >= 0
    requires s.code.ExpectingIflrHeader? || s.code.ExpectingIflrData?
    ensures s.trail == |cur.trailer| && s.lrsRem == |cur.body| + |cur.trailer| && s.stash == []
    ensures BodyInWindow(s) == cur.body[..Min(|cur.body|, |s.win|)]
    ensures tail == [] ==> |s.win| >= |cur.body|
    ensures tail == [] && |s.win| <= |cur.body| + |cur.trailer| ==> ToCome(cur) == []
    ensures tail == [] && |s.win| <= |cur.body| ==> cur.trailer == [] && |s.win| == |cur.body| && cur.records == []
    ensures |s.win| > |cur.body| ==> cur.trailer != [] || ToCome(cur) != []
  {
    hide SegmentsBytes, TapeBytes, TrailerOk;
    var rest := cur.trailer + (SegmentsBytes(cur.segs) + TapeBytes(cur.records));
    assert s.win + tail == cur.body + rest;
    SplitStream(s.win, tail, cur.body, rest, Min(|cur.body|, |s.win|));
    assert |s.win + tail| == |s.win| + |tail|;
    NoBytesNoSegments(cur);
    if ToCome(cur) == [] {
      NoSegmentsNoBytes(cur);
    }
  }

  lemma NoBytesNoSegments(cur: Cursor)
    requires CursorOk(cur)
    ensures |SegmentsBytes(cur.segs)| + |TapeBytes(cur.records)| == 0 ==> ToCome(cur) == [] && cur.records == []
  {
  }

  lemma NoSegmentsNoBytes(cur: Cursor)
    requires CursorOk(cur) && ToCome(cur) == []
    ensures |SegmentsBytes(cur.segs)| + |TapeBytes(cur.records)| == 0
  {
    FlattenSome(cur.records);
  }

  lemma FlattenSome(vs: seq<seq<Segment>>)
    requires TapeOk(vs)
    ensures Flatten(vs) == [] <==> vs == []
  {
    assert vs != [] ==> RecordOk(vs[0]);
  }

  lemma HeaderFollows(c: Config, s: State, cur: Cursor, tail: bytes) returns (next: Cursor)
    requires Faithful(c, s, cur, tail) && s.code.ExpectingIflrHeader? && s.trail >= 0
    ensures Follows(c, s, cur, StepHeader(c, s).s, next, tail)
    ensures StepHeader(c, s).Wait? && tail == [] ==> next == cur && Hanging(StepHeader(c, s).s, cur)
  {
    hide Stands, Good, Fine, Left, At, DecodeHeader, FindFrame, ToCome, BodyInWindow, Follows, EndsBare, HasChannel;
    WindowShowsBody(s, cur, tail);
    var t := StepHeader(c, s).s;
    var v := Viewed(s, cur);
    var m := Min(|cur.body|, |s.win|);
    var d := DecodeHeader(cur.body[..m]);
    assert s.out + [] == s.out;
    if d.Got? {
      EmptyHeaderFails();
      var f := FindFrame(c, d.value.0, 0);
      next := cur.(body := cur.body[d.len..]);
      HeaderOpens(c, v, m);
      SameToCome(cur, next.body);
      BodyUsed(s, t, cur, tail, d.len);
      DataHasChannel(c, t, next);
      Followed(c, s, cur, t, next, tail, [HeaderRead(f, d.value.1)]);
    } else if |s.win| <= |cur.body| {
      next := cur;
      Unchanged(c, s, cur, t, tail);
      if tail == [] {
        assert cur.body[..m] == cur.body;
        HeaderThereAtEnd(c, v);
      }
    } else {
      next := cur.(body := []);
      assert cur.body[..m] == cur.body;
      SameToCome(cur, []);
      if cur.body != [] {
        HeaderStashed(c, v);
        BodyUsed(s, t, cur, tail, |cur.body|);
        Followed(c, s, cur, t, next, tail, []);
      } else {
        EmptyHeaderDooms(c, s, cur, t, next, tail);
      }
    }
  }

  lemma SameToCome(cur: Cursor, body: bytes)
    ensures ToCome(cur.(body := body)) == ToCome(cur)
  {
  }

  lemma HeaderThereAtEnd(c: Config, v: View)
    requires Stands(c, v) && v.phase.Header? && v.gs == [] && DecodeHeader(v.held).Fail?
    ensures v.held == []
  {
    hide DecodeHeader;
    if InHeader(c, v) {
      HeaderNeedsMore(c, v);
    }
  }

  /** Nothing is lost by the crash exactly if nothing comes behind the empty segment. */
  lemma EmptyHeaderDooms(c: Config, s: State, cur: Cursor, t: State, next: Cursor, tail: bytes)
    requires Stands(c, Viewed(s, cur)) && s.code.ExpectingIflrHeader? && cur.body == []
    requires cur.trailer != [] || ToCome(cur) != []
    requires t.code.ExpectingIflrData? && t.dec == s.dec && t.out == s.out
    ensures Follows(c, s, cur, t, next, tail)
  {
    var v := Viewed(s, cur);
    EmptyRecordFails(c);
    BeyondStarts(v.gs);
    hide RecordEvents, ToCome, EndsBare, FollowedFull, EndsFull;
    assert [] + Continued(v.gs) == Continued(v.gs);
    if Continued(v.gs) == [] && Beyond(v.gs) == [] {
      NothingLeft(v.gs);
      assert Left(c, v) == [] + [];
    } else if Continued(v.gs) != [] {
      RecordNotEmpty(c, Continued(v.gs));
      assert RestOfRecord(v) == Continued(v.gs);
      assert RecordLeft(c, v) == Events(RecordEvents(c, Continued(v.gs)));
      assert Left(c, v) != [];
    } else {
      TapeNotEmpty(c, Beyond(v.gs));
      assert Left(c, v) != [];
    }
    assert s.out + Left(c, v) == s.out <==> Left(c, v) == [];
  }

  lemma RecordNotEmpty(c: Config, body: bytes)
    requires RecordEvents(c, body).Some?
    ensures Events(RecordEvents(c, body)) != []
  {
    hide DecodeHeader, CurveEvents;
  }

  /** A record means at least its header. */
  lemma TapeNotEmpty(c: Config, gs: seq<Segment>)
    requires gs != [] && TapeEvents(c, gs).Some?
    ensures Events(TapeEvents(c, gs)) != []
  {
    hide DecodeHeader, CurveEvents;
  }

  lemma NothingLeft(gs: seq<Segment>)
    requires Continued(gs) == [] && Beyond(gs) == []
    ensures FollowedFull(gs)
  {
    if gs != [] {
      NothingFollows(gs);
    }
  }

  lemma DataFollows(c: Config, s: State, cur: Cursor, tail: bytes) returns (next: Cursor)
    requires Faithful(c, s, cur, tail) && s.code.ExpectingIflrData? && s.trail >= 0
    ensures Follows(c, s, cur, StepData(c, s).s, next, tail)
    ensures StepData(c, s).Wait? ==> tail != []
  {
    hide Stands, Good, Fine, Left, At, ToCome, BodyInWindow, Follows, ValuesIn, NewIndex, Pending, CurveThen, Continued,
        EndsBare, HasChannel, MayLoad, LoadChannel, Deliver;
    WindowShowsBody(s, cur, tail);
    var v := Viewed(s, cur);
    var m := Min(|cur.body|, |s.win|);
    DataTaken(c, v, m);
    var d := LoadChannel(c, s.dec);
    var r := ValuesIn(d, cur.body[..m]);
    var d2 := Took(c, d, r.values);
    var rest := cur.body[r.len..];
    var t := StepData(c, s).s;
    assert s.out + [] == s.out;
    next := cur.(body := rest);
    SameToCome(cur, rest);
    if Fresh(d2) {
      CurveComplete(c, v, d2, rest, View(if rest == [] then Gap else Data, NextChannel(d2), rest, v.gs));
      BodyUsed(s, t, cur, tail, r.len);
      Followed(c, s, cur, t, next, tail, [Curve(d2)]);
    } else if |s.win| - r.len <= s.lrsRem - r.len {
      CurveIncomplete(c, v, d2, rest, View(Data, d2, rest, v.gs));
      LastSegment(v);
      BodyUsed(s, t, cur, tail, r.len);
      Followed(c, s, cur, t, next, tail, []);
    } else {
      next := cur.(body := []);
      SameToCome(cur, []);
      SkippedBody(s, cur.body, r.len, d2);
      CurveIncomplete(c, v, d2, rest, View(Gap, d2, rest, v.gs));
      BodyUsed(s, t, cur, tail, |cur.body|);
      Followed(c, s, cur, t, next, tail, []);
    }
  }

  lemma LastSegment(v: View)
    ensures v.gs == [] ==> RestOfRecord(v) == v.held
  {
  }

  /** The stash is what is left of the body. */
  lemma SkippedBody(s: State, body: bytes, used: nat, d: Decoding)
    requires used <= |body| <= |s.win| && BodyInWindow(s) == body && s.lrsRem - s.trail == |body|
    ensures var t := SkipUnparsed(Consume(s, used).(dec := d));
            t.stash == body[used..] && t.win == s.win[|body|..]
            && t.lrsRem == s.lrsRem - |body| && t.vrRem == s.vrRem - |body|
  {
    assert s.win[..|body|] == body;
    assert s.win[used..][..|body| - used] == s.win[..|body|][used..];
    assert s.win[used..][|body| - used..] == s.win[|body|..];
  }

  /** The tape is read to its end. */
  predicate AtEnd(s: State)
  {
    s.code.ExpectingVr? && s.win == []
  }

  /** The program waits for a header that will not come. */
  predicate Hanging(s: State, cur: Cursor)
  {
    s.code.ExpectingIflrHeader? && s.win == [] && cur.body == [] && cur.trailer == [] && ToCome(cur) == []
  }

  /** The whole of a segment is there at the latest at the end of the file. */
  lemma SegmentArrives(s: State, cur: Cursor, tail: bytes)
    requires At(s, cur, tail) && InSegment(s, cur) && (s.code.ExpectingIflrHeader? || s.code.ExpectingIflrData?)
    ensures tail == [] ==> |s.win| >= s.lrsRem
  {
    hide SegmentsBytes, TapeBytes, TrailerOk;
    assert |s.win + tail| == |s.win| + |tail|;
  }

  lemma TrailFollows(c: Config, s: State, cur: Cursor, tail: bytes)
    requires Faithful(c, s, cur, tail)
    ensures var t := WithTrail(s);
            && Faithful(c, t, cur, tail) && Viewed(t, cur) == Viewed(s, cur) && t.out == s.out && t.code == s.code
            && !t.code.Stopped?
            && (t.trail < 0 ==> tail != [] && Follows(c, s, cur, t, cur, tail))
  {
    hide Stands, Good, Fine, Survives, Left, ToCome, CursorOk, CursorBytes, TrailerOk;
    TrailFound(s, cur, tail);
    var t := WithTrail(s);
    if t.trail < 0 {
      SegmentArrives(s, cur, tail);
      Unchanged(c, s, cur, t, tail);
    }
  }

  /** Where the loop can be when all bytes have come. */
  predicate Finished(s: State, cur: Cursor)
  {
    (AtEnd(s) && cur == Start([])) || Hanging(s, cur)
  }

  /** Every turn of the loop, from any place of the tape. */
  lemma StepFollows(c: Config, s: State, cur: Cursor, tail: bytes) returns (next: Cursor)
    requires Faithful(c, s, cur, tail)
    ensures Follows(c, s, cur, Step(c, s).s, next, tail)
    ensures Step(c, s).Wait? && tail == [] ==> Finished(Step(c, s).s, next)
  {
    hide Good, Fine, Survives, Left, Stands, At, ToCome, StepVr, StepLrs, StepHeader, StepData, StepTrailing, WithTrail,
        Follows;
    TrailFollows(c, s, cur, tail);
    var t := WithTrail(s);
    next := cur;
    if t.trail >= 0 {
      match t.code {
        case ExpectingVr => next := VrFollows(c, t, cur, tail);
        case ExpectingLrs => next := LrsFollows(c, t, cur, tail);
        case ExpectingIflrHeader => next := HeaderFollows(c, t, cur, tail);
        case ExpectingIflrData => next := DataFollows(c, t, cur, tail);
        case ExpectingTrailing => next := TrailingFollows(c, t, cur, tail);
      }
      FollowsFrom(c, s, t, cur, Step(c, s).s, next, tail);
    }
  }

  lemma FollowsFrom(c: Config, s: State, t: State, cur: Cursor, u: State, next: Cursor, tail: bytes)
    requires Follows(c, t, cur, u, next, tail)
    requires Viewed(t, cur) == Viewed(s, cur) && t.out == s.out && t.code == s.code
    ensures Follows(c, s, cur, u, next, tail)
  {
    hide Good, Fine, Left, Stands, At, ToCome, EndsBare;
  }

  /** A parser that has left the tape stays off it and stops, whatever bytes come. */
  lemma DoomedLoop(c: Config, s: State)
    requires Doomed(c, s) && (s.code.Stopped? || s.trail >= 0)
    ensures Loop(c, s).code.Stopped? && Loop(c, s).out == s.out
  {
    assert Step(c, s).Wait?;
  }

  lemma {:induction false} StoppedFeedAll(c: Config, s: State, chunks: seq<bytes>)
    requires s.code.Stopped?
    ensures FeedAll(c, s, chunks) == s
    decreases |chunks|
  {
    if chunks != [] {
      StoppedFeedAll(c, s, chunks[1..]);
    }
  }

  lemma {:induction false} LoopFollows(c: Config, s: State, cur: Cursor, tail: bytes) returns (next: Cursor)
    requires Faithful(c, s, cur, tail)
    ensures Follows(c, s, cur, Loop(c, s), next, tail)
    ensures Doomed(c, Loop(c, s)) ==> Loop(c, s).code.Stopped?
    ensures tail == [] && !Doomed(c, Loop(c, s)) ==> Finished(Loop(c, s), next)
    decreases |s.win| + |s.stash|, Rank(s.code)
  {
    DataHasChannel(c, s, cur);
    NotStopped(s, cur, tail);
    hide Good, Fine, Survives, Left, Stands, At, ToCome, Step, HasChannel, Follows, Finished;
    next := StepFollows(c, s, cur, tail);
    var t := Step(c, s).s;
    if Step(c, s).Go? {
      StepProgress(c, s);
      if Doomed(c, t) {
        DoomedKnown(c, s);
        DoomedLoop(c, t);
        StaysDoomed(c, s, cur, t, next, tail, Loop(c, t), tail);
      } else {
        FollowsFaithful(c, s, cur, t, next, tail);
        var mid := next;
        next := LoopFollows(c, t, mid, tail);
        FollowsTransitive(c, s, cur, t, mid, tail, Loop(c, t), next, tail);
      }
    } else if Doomed(c, t) {
      DoomedWaits(c, s);
    }
  }

  /** The loop goes on to frame data only once the length of the trailer is known. */
  lemma DoomedKnown(c: Config, s: State)
    requires Step(c, s).Go? && Doomed(c, Step(c, s).s)
    ensures Step(c, s).s.code.Stopped? || Step(c, s).s.trail >= 0
  {
    hide DecodeHeader, FindFrame, ValuesIn, NewIndex, DeliverAll, BodyInWindow, Decodable, LoadChannel, MayLoad;
  }

  lemma DoomedWaits(c: Config, s: State)
    requires !Doomed(c, s) && Step(c, s).Wait? && Doomed(c, Step(c, s).s)
    ensures Step(c, s).s.code.Stopped?
  {
    hide DecodeHeader, FindFrame, StepData;
    if s.code.ExpectingIflrData? && WithTrail(s).trail >= 0 {
      DataWaits(c, WithTrail(s));
    }
  }

  lemma DataWaits(c: Config, s: State)
    requires s.trail >= 0 && HasChannel(c, s.dec) && StepData(c, s).Wait?
    ensures StepData(c, s).s.code.Stopped? || HasChannel(c, StepData(c, s).s.dec)
  {
    hide ValuesIn, NewIndex, DeliverAll, BodyInWindow, Decodable;
  }

  // ----- The theorem -----

  lemma FeedPlace(c: Config, s: State, cur: Cursor, chunk: bytes, tail: bytes)
    requires Faithful(c, s, cur, chunk + tail)
    ensures Faithful(c, Append(s, chunk), cur, tail)
    ensures Viewed(Append(s, chunk), cur) == Viewed(s, cur)
  {
    hide Stands, ToCome, SegmentsOk, TapeOk, CursorBytes, TrailerOk, SegmentsLen;
    assert (s.win + chunk) + tail == s.win + (chunk + tail);
  }

  /** When no more bytes will come, there is nothing left to do. */
  predicate Settled(s: State, cur: Cursor, tail: bytes)
  {
    tail == [] ==> Finished(s, cur)
  }

  lemma FeedFollows(c: Config, s: State, cur: Cursor, chunk: bytes, tail: bytes) returns (next: Cursor)
    requires Faithful(c, s, cur, chunk + tail) && Settled(s, cur, chunk + tail)
    ensures Follows(c, s, cur, Feed(c, s, chunk), next, tail)
    ensures Doomed(c, Feed(c, s, chunk)) ==> Feed(c, s, chunk).code.Stopped?
    ensures !Doomed(c, Feed(c, s, chunk)) ==> Settled(Feed(c, s, chunk), next, tail)
  {
    DataHasChannel(c, s, cur);
    hide Good, Fine, Survives, Left, Stands, At, ToCome, Loop, HasChannel;
    FeedPlace(c, s, cur, chunk, tail);
    NotStopped(Append(s, chunk), cur, tail);
    if s.win + chunk != [] {
      next := LoopFollows(c, Append(s, chunk), cur, tail);
      FollowsFrom(c, s, Append(s, chunk), cur, Loop(c, Append(s, chunk)), next, tail);
    } else {
      next := cur;
      assert chunk + tail == tail && Append(s, chunk) == s;
      Unchanged(c, s, cur, s, tail);
    }
  }

  lemma FollowsTransitive(c: Config, s: State, cur: Cursor, t: State, mid: Cursor, tail: bytes, u: State,
      end: Cursor, rest: bytes)
    requires Follows(c, s, cur, t, mid, tail) && !Doomed(c, t) && Follows(c, t, mid, u, end, rest)
    ensures Follows(c, s, cur, u, end, rest)
  {
    hide Good, Fine, Survives, Left, Stands, At, ToCome;
  }

  lemma {:induction false} FeedAllFollows(c: Config, s: State, cur: Cursor, chunks: seq<bytes>) returns (next: Cursor)
    requires Faithful(c, s, cur, Joined(chunks)) && Settled(s, cur, Joined(chunks))
    ensures Follows(c, s, cur, FeedAll(c, s, chunks), next, [])
    ensures Doomed(c, FeedAll(c, s, chunks)) ==> FeedAll(c, s, chunks).code.Stopped?
    ensures !Doomed(c, FeedAll(c, s, chunks)) ==> Settled(FeedAll(c, s, chunks), next, [])
    decreases |chunks|
  {
    DataHasChannel(c, s, cur);
    hide Good, Fine, Survives, Left, Stands, At, ToCome, Feed, Follows, Settled, HasChannel;
    if chunks == [] {
      next := cur;
      Unchanged(c, s, cur, s, []);
      NotStopped(s, cur, Joined(chunks));
    } else {
      var t := Feed(c, s, chunks[0]);
      var mid := FeedFollows(c, s, cur, chunks[0], Joined(chunks[1..]));
      if Doomed(c, t) {
        StoppedFeedAll(c, t, chunks[1..]);
        next := mid;
        StaysDoomed(c, s, cur, t, mid, Joined(chunks[1..]), t, []);
      } else {
        FollowsFaithful(c, s, cur, t, mid, Joined(chunks[1..]));
        next := FeedAllFollows(c, t, mid, chunks[1..]);
        FollowsTransitive(c, s, cur, t, mid, Joined(chunks[1..]), FeedAll(c, s, chunks), next, []);
      }
    }
  }

  lemma StaysDoomed(c: Config, s: State, cur: Cursor, t: State, next: Cursor, tail: bytes, u: State, rest: bytes)
    requires Follows(c, s, cur, t, next, tail) && Doomed(c, t) && Doomed(c, u) && u.out == t.out
    ensures Follows(c, s, cur, u, next, rest)
  {
  }

  lemma FollowsFaithful(c: Config, s: State, cur: Cursor, t: State, next: Cursor, tail: bytes)
    requires Follows(c, s, cur, t, next, tail) && !Doomed(c, t)
    ensures Faithful(c, t, next, tail)
  {
  }

  /** A parser between two records: nothing unread, stashed or half decoded. */
  predicate BetweenRecords(c: Config, s: State)
  {
    && s.code.ExpectingVr? && s.win == [] && s.stash == [] && s.trail >= 0 && Idle(s.dec)
  }

  /** The header of the first record is whole in its first segment, if a channel is current before it. */
  predicate FirstHeaderSafe(c: Config, d: Decoding, gs: seq<Segment>)
  {
    gs != [] ==> HeaderMayCome(c, d, gs[0].body)
  }

  lemma StartFaithful(c: Config, s: State, vs: seq<seq<Segment>>)
    requires TapeOk(vs) && BetweenRecords(c, s) && TapeEvents(c, Flatten(vs)).Some?
    requires FirstHeaderSafe(c, s.dec, Flatten(vs))
    ensures Faithful(c, s, Start(vs), TapeBytes(vs)) && Settled(s, Start(vs), TapeBytes(vs))
    ensures Good(Viewed(s, Start(vs))) == EndsFull(Flatten(vs))
    ensures Fine(Viewed(s, Start(vs))) == FollowedFull(Flatten(vs))
    ensures Survives(s, Start(vs)) == EndsBare(Flatten(vs))
    ensures Total(c, s, Start(vs)) == s.out + Events(TapeEvents(c, Flatten(vs)))
  {
    hide EndsFull, FollowedFull, EndsBare, RecordEvents;
    var gs := Flatten(vs);
    assert ToCome(Start(vs)) == gs;
    assert Beyond(gs) == gs && Continued(gs) == [];
    assert [] + Events(TapeEvents(c, gs)) == Events(TapeEvents(c, gs));
    assert ([] + []) + ([] + TapeBytes(vs)) == TapeBytes(vs);
    assert TapeBytes(vs) == [] ==> vs == [];
  }

  /** At the end of the tape nothing is unread and no record is open, or a header is waited for in vain. */
  lemma EndReached(c: Config, s: State, cur: Cursor)
    requires Faithful(c, s, cur, []) && Finished(s, cur)
    ensures BetweenRecords(c, s) == AtEnd(s) == Good(Viewed(s, cur))
    ensures Survives(s, cur) && Fine(Viewed(s, cur)) && Total(c, s, cur) == s.out
  {
    EndsBareEmpty();
    EmptyRecordFails(c);
    hide RecordEvents, EndsBare;
    var v := Viewed(s, cur);
    assert v.gs == [] && TapeEvents(c, []) == Some([]);
    assert [] + Continued([]) == [];
    assert Left(c, v) == [] + [];
    assert s.out + [] == s.out;
  }

  /** Whatever the bodies of the records are, however they are cut into segments, with and without trailers,
      however the segments are put into visible records, and whatever the chunks in which the file is read:
      - the parser reports exactly what the contiguous bodies hold, each record in turn, if and only if no record
        begins with an empty segment, and none but the last ends with one;
      - it ends between records if and only if none at all begins or ends with one;
      - it crashes if and only if one does, and it is not just the very last segment, with nothing but its header. */
  lemma CutsDoNotMatter(c: Config, s: State, vs: seq<seq<Segment>>, chunks: seq<bytes>)
    requires TapeOk(vs) && BetweenRecords(c, s) && TapeEvents(c, Flatten(vs)).Some?
    requires FirstHeaderSafe(c, s.dec, Flatten(vs))
    requires Joined(chunks) == TapeBytes(vs)
    ensures var t := FeedAll(c, s, chunks);
            && (t.out == s.out + Events(TapeEvents(c, Flatten(vs))) <==> FollowedFull(Flatten(vs)))
            && (BetweenRecords(c, t) <==> EndsFull(Flatten(vs)))
            && (t.code.Stopped? <==> !EndsBare(Flatten(vs)))
  {
    hide Good, Fine, Survives, Stands, At, FeedAll, TapeEvents, Flatten, EndsFull, FollowedFull, EndsBare, Finished,
        ToCome, Left, HasChannel;
    StartFaithful(c, s, vs);
    var next := FeedAllFollows(c, s, Start(vs), chunks);
    var t := FeedAll(c, s, chunks);
    if !Doomed(c, t) {
      EndReached(c, t, next);
    }
  }

  /** So two files that hold the same records, cut in different ways and read in different chunks, leave the
      parser with the same events. */
  lemma SameRecordsSameEvents(c: Config, s: State, vs: seq<seq<Segment>>, ws: seq<seq<Segment>>,
                              chunks: seq<bytes>, pieces: seq<bytes>)
    requires BetweenRecords(c, s) && FirstHeaderSafe(c, s.dec, Flatten(vs)) && FirstHeaderSafe(c, s.dec, Flatten(ws))
    requires TapeOk(vs) && FollowedFull(Flatten(vs)) && Joined(chunks) == TapeBytes(vs)
    requires TapeOk(ws) && FollowedFull(Flatten(ws)) && Joined(pieces) == TapeBytes(ws)
    requires StartsRecord(Flatten(vs)) && StartsRecord(Flatten(ws)) && Bodies(Flatten(vs)) == Bodies(Flatten(ws))
    requires TapeEvents(c, Flatten(vs)).Some?
    ensures FeedAll(c, s, chunks).out == FeedAll(c, s, pieces).out
  {
    hide FeedAll, TapeEvents, Flatten, Bodies, FollowedFull, TapeBytes, TapeOk, FirstHeaderSafe;
    SameBodiesSameEvents(c, Flatten(vs), Flatten(ws));
    CutsDoNotMatter(c, s, vs, chunks);
    CutsDoNotMatter(c, s, ws, pieces);
  }
}
