/** Two things the parser does whatever the bytes of the bodies mean: it stays aligned with the segments,
    and it takes a cut header for data if a channel is current.  The second makes the first record after the
    frame definitions special, since reading those leaves a current channel. */
module DlisFirstRecord {
  import opened Bytes
  import opened DlisMachine
  import opened DlisTape
  import opened DlisRecords
  import opened DlisFraming

  // ----- Alignment, whatever the bodies hold -----

  lemma HeaderAligned(c: Config, s: State, cur: Cursor, tail: bytes)
    requires At(s, cur, tail) && s.code.ExpectingIflrHeader? && s.trail >= 0
    ensures var t := StepHeader(c, s).s; !t.code.Stopped? ==> At(t, Moved(s, t, cur), tail)
  {
    hide At, DecodeHeader, FindFrame, BodyInWindow;
    WindowShowsBody(s, cur, tail);
    var t := StepHeader(c, s).s;
    match DecodeHeader(BodyInWindow(s))
    case Got(h, k) =>
      if !t.code.Stopped? {
        BodyUsed(s, t, cur, tail, k);
      }
    case Fail =>
      if |s.win| > |cur.body| {
        BodyUsed(s, t, cur, tail, |cur.body|);
      } else {
        MovedNowhere(s, cur);
      }
  }

  lemma MovedNowhere(s: State, cur: Cursor)
    requires s.code.ExpectingIflrHeader? || s.code.ExpectingIflrData?
    ensures Moved(s, s, cur) == cur
  {
    assert cur.body[0..] == cur.body;
  }

  lemma DataAligned(c: Config, s: State, cur: Cursor, tail: bytes)
    requires At(s, cur, tail) && s.code.ExpectingIflrData? && s.trail >= 0
    ensures var t := StepData(c, s).s; !t.code.Stopped? ==> At(t, Moved(s, t, cur), tail)
  {
    hide At, ValuesIn, NewIndex, BodyInWindow, LoadChannel, Took, HasChannel, MayLoad, ToCome, NextChannel, TrailBase;
    WindowShowsBody(s, cur, tail);
    var t := StepData(c, s).s;
    if !t.code.Stopped? {
      var d := LoadChannel(c, s.dec);
      var r := ValuesIn(d, BodyInWindow(s));
      SkippedWindow(s, r.len, Took(c, d, r.values));
      if t.lrsRem == s.lrsRem - r.len && t.win == s.win[r.len..] {
        BodyUsed(s, t, cur, tail, r.len);
      } else {
        BodyUsed(s, t, cur, tail, |cur.body|);
      }
    }
  }

  lemma SkippedWindow(s: State, used: nat, d: Decoding)
    requires used <= |s.win|
    ensures var t := Consume(s, used).(dec := d);
            0 <= t.lrsRem - t.trail <= |t.win| ==>
              t.win[t.lrsRem - t.trail..] == s.win[s.lrsRem - s.trail..]
  {
  }

  /** When segments tile a record, the parser reads the next header exactly where the last segment ends: it is
      at a place of the tape after every turn, unless it has stopped, and it takes the segments in order. */
  lemma StepAligned(c: Config, s: State, cur: Cursor, tail: bytes) returns (next: Cursor)
    requires At(s, cur, tail)
    ensures s.code.ExpectingLrs? ==> ToCome(cur) != []
    ensures var t := Step(c, s).s;
            !t.code.Stopped? ==>
              && At(t, next, tail)
              && ToCome(next) == (if s.code.ExpectingLrs? && !t.code.ExpectingLrs? then ToCome(cur)[1..]
                                  else ToCome(cur))
              && (next.trailer == cur.trailer || next.trailer == []
                  || (s.code.ExpectingLrs? && next.trailer == ToCome(cur)[0].trailer))
  {
    hide At, StepVr, StepLrs, StepHeader, StepData, StepTrailing, WithTrail, ToCome;
    TrailFound(s, cur, tail);
    var s1 := WithTrail(s);
    next := cur;
    if s.code.ExpectingLrs? {
      LrsAligned(c, s1, cur, tail);
      ToComeUnfolds(s1, cur);
    }
    if s1.trail >= 0 && !s1.code.Stopped? {
      var t := Step(c, s).s;
      match s1.code
      case ExpectingVr => next := VrMoves(s1, cur, tail);
      case ExpectingLrs =>
        if StepLrs(c, s1).Go? {
          next := NextSegment(s1, cur);
          NotLrs(c, s1);
        }
      case ExpectingIflrHeader =>
        HeaderAligned(c, s1, cur, tail);
        next := Moved(s1, t, cur);
        SameToCome(cur, next.body);
      case ExpectingIflrData => DataAligned(c, s1, cur, tail); next := Moved(s1, t, cur); SameToCome(cur, next.body);
      case ExpectingTrailing => TrailingAligned(s1, cur, tail); next := Moved(s1, t, cur); SameSegments(cur, next);
    }
  }

  lemma ToComeUnfolds(s: State, cur: Cursor)
    requires cur.segs != []
    ensures ToCome(cur) != [] && ToCome(cur)[0] == cur.segs[0] && ToCome(cur)[1..] == ToCome(NextSegment(s, cur))
  {
    assert ToCome(cur) == [cur.segs[0]] + ToCome(NextSegment(s, cur));
  }

  lemma NotLrs(c: Config, s: State)
    requires StepLrs(c, s).Go?
    ensures !StepLrs(c, s).s.code.ExpectingLrs?
  {
  }

  lemma VrMoves(s: State, cur: Cursor, tail: bytes) returns (next: Cursor)
    requires At(s, cur, tail) && s.code.ExpectingVr?
    ensures At(StepVr(s).s, next, tail) && ToCome(next) == ToCome(cur)
    ensures next.trailer == cur.trailer || next.trailer == []
  {
    VrAligned(s, cur, tail);
    next := Moved(s, StepVr(s).s, cur);
    if StepVr(s).Go? {
      ToComeNextRecord(cur);
    }
  }

  lemma SameSegments(a: Cursor, b: Cursor)
    requires a.segs == b.segs && a.records == b.records
    ensures ToCome(a) == ToCome(b)
  {
  }

  // ----- A header that is cut while a channel is current -----

  predicate NoFirst(gs: seq<Segment>) { forall i :: 0 <= i < |gs| ==> !IsFirst(gs[i].attr) }

  /** One record: its first segment, and the ones that continue it. */
  predicate OneRecord(gs: seq<Segment>) { gs != [] && IsFirst(gs[0].attr) && NoFirst(gs[1..]) }

  /** The next event after o is not a header: there is none yet, or it was a curve. */
  predicate NoHeaderAfter(out: seq<Event>, o: seq<Event>)
  {
    out == o || (|out| > |o| && out[..|o|] == o && out[|o|].CurveWritten?)
  }

  /** Nor will it be one. */
  predicate Strayed(c: Config, s: State, o: seq<Event>)
  {
    NoHeaderAfter(s.out, o) && (s.out == o ==> HasChannel(c, s.dec) && !s.code.ExpectingIflrHeader?)
  }

  /** The record has begun to be read, and its header does not end in its first segment. */
  ghost predicate BeforeHeader(c: Config, s: State, cur: Cursor, gs: seq<Segment>, o: seq<Event>)
  {
    && OneRecord(gs) && DecodeHeader(gs[0].body).Fail?
    && s.out == o && HasChannel(c, s.dec) && s.stash == []
    && if s.code.ExpectingIflrHeader? then cur.body == gs[0].body && ToCome(cur) == gs[1..]
       else (s.code.ExpectingVr? || s.code.ExpectingLrs?) && ToCome(cur) == gs
  }

  ghost predicate Off(c: Config, s: State, cur: Cursor, tail: bytes, gs: seq<Segment>, o: seq<Event>)
  {
    && NoHeaderAfter(s.out, o)
    && (s.code.Stopped?
        || (At(s, cur, tail) && (BeforeHeader(c, s, cur, gs, o) || (Strayed(c, s, o) && NoFirst(ToCome(cur))))))
  }

  /** A turn on frame data writes a curve, or leaves the channel where it is. */
  lemma DataOut(c: Config, s: State)
    requires s.trail >= 0 && s.code.ExpectingIflrData?
    ensures var t := StepData(c, s).s;
            || (t.out == s.out && (t.code.Stopped? || (HasChannel(c, t.dec) && !t.code.ExpectingIflrHeader?)))
            || exists d: Decoding :: d.frame >= 0 && t.out == s.out + [Curve(d)]
  {
    hide ValuesIn, NewIndex, BodyInWindow;
    if MayLoad(c, s.dec) {
      var d := LoadChannel(c, s.dec);
      if d.cnt >= d.dim || Decodable(d) {
        var d2 := Took(c, d, ValuesIn(d, BodyInWindow(s)).values);
        assert d2.frame >= 0;
      }
    }
  }

  lemma HeaderOut(c: Config, s: State)
    requires s.trail >= 0 && s.code.ExpectingIflrHeader?
    ensures var t := StepHeader(c, s).s; s.out <= t.out
  {
    hide DecodeHeader, FindFrame;
  }

  lemma StrayStep(c: Config, s: State, cur: Cursor, tail: bytes, o: seq<Event>)
    requires At(s, cur, tail) && Strayed(c, s, o) && NoFirst(ToCome(cur))
    ensures var t := Step(c, s).s; NoHeaderAfter(t.out, o) && (t.code.Stopped? || Strayed(c, t, o))
  {
    hide StepHeader, StepData, WithTrail, At, ToCome;
    TrailFound(s, cur, tail);
    var s1 := WithTrail(s);
    if s.code.ExpectingIflrHeader? && s1.trail >= 0 {
      HeaderOut(c, s1);
    } else if s.code.ExpectingIflrData? && s1.trail >= 0 {
      DataOut(c, s1);
    } else if s.code.ExpectingLrs? {
      LrsAligned(c, s1, cur, tail);
      ToComeUnfolds(s1, cur);
    }
  }

  lemma HeaderFailsInWindow(s: State, cur: Cursor, tail: bytes)
    requires At(s, cur, tail) && s.trail >= 0 && s.code.ExpectingIflrHeader?
    requires DecodeHeader(cur.body).Fail?
    ensures DecodeHeader(BodyInWindow(s)).Fail?
  {
    hide At, DecodeHeader, BodyInWindow;
    WindowShowsBody(s, cur, tail);
    HeaderStable(cur.body, Min(|cur.body|, |s.win|));
  }

  lemma BeforeHeaderLrs(c: Config, s: State, cur: Cursor, tail: bytes, gs: seq<Segment>, o: seq<Event>)
    returns (next: Cursor)
    requires At(s, cur, tail) && BeforeHeader(c, s, cur, gs, o) && s.code.ExpectingLrs?
    ensures Off(c, StepLrs(c, s).s, next, tail, gs, o)
  {
    hide At, StepLrs, WithTrail, DecodeHeader, NoFirst;
    LrsAligned(c, s, cur, tail);
    if StepLrs(c, s).Go? {
      next := NextSegment(s, cur);
      ToComeUnfolds(s, cur);
      assert s.stash + gs[0].body == gs[0].body;
    } else {
      next := cur;
    }
  }

  lemma BeforeHeaderTry(c: Config, s: State, cur: Cursor, tail: bytes, gs: seq<Segment>, o: seq<Event>)
    returns (next: Cursor)
    requires At(s, cur, tail) && BeforeHeader(c, s, cur, gs, o) && s.code.ExpectingIflrHeader? && s.trail >= 0
    ensures Off(c, StepHeader(c, s).s, next, tail, gs, o)
  {
    hide At, DecodeHeader, BodyInWindow, ToCome, Moved;
    HeaderFailsInWindow(s, cur, tail);
    WindowShowsBody(s, cur, tail);
    var t := StepHeader(c, s).s;
    if StepHeader(c, s).Wait? {
      next := cur;
    } else {
      next := cur.(body := []);
      BodyUsed(s, t, cur, tail, |cur.body|);
      SameToCome(cur, []);
    }
  }

  lemma BeforeHeaderVr(c: Config, s: State, cur: Cursor, tail: bytes, gs: seq<Segment>, o: seq<Event>)
    returns (next: Cursor)
    requires At(s, cur, tail) && BeforeHeader(c, s, cur, gs, o) && s.code.ExpectingVr?
    ensures Off(c, StepVr(s).s, next, tail, gs, o)
  {
    next := VrMoves(s, cur, tail);
    hide At, ToCome, DecodeHeader, NoFirst;
  }

  lemma OffTrail(c: Config, s: State, cur: Cursor, tail: bytes, gs: seq<Segment>, o: seq<Event>)
    requires At(s, cur, tail) && BeforeHeader(c, s, cur, gs, o)
    ensures At(WithTrail(s), cur, tail) && BeforeHeader(c, WithTrail(s), cur, gs, o)
    ensures WithTrail(s).code == s.code
    ensures !s.code.ExpectingIflrHeader? ==> WithTrail(s) == s
  {
    hide ToCome, DecodeHeader, NoFirst, CursorOk, CursorBytes, TrailerOk;
    TrailFound(s, cur, tail);
  }

  /** A turn before the header is given up. */
  lemma BeforeHeaderStep(c: Config, s: State, cur: Cursor, tail: bytes, gs: seq<Segment>, o: seq<Event>)
    returns (next: Cursor)
    requires At(s, cur, tail) && BeforeHeader(c, s, cur, gs, o)
    ensures Off(c, Step(c, s).s, next, tail, gs, o)
  {
    OffTrail(c, s, cur, tail, gs, o);
    var s1 := WithTrail(s);
    next := cur;
    if s1.trail >= 0 {
      match s1.code
      case ExpectingVr => next := BeforeHeaderVr(c, s1, cur, tail, gs, o);
      case ExpectingLrs => next := BeforeHeaderLrs(c, s1, cur, tail, gs, o);
      case ExpectingIflrHeader => next := BeforeHeaderTry(c, s1, cur, tail, gs, o);
      case _ =>
    }
    hide At, ToCome, BeforeHeader, Strayed, NoFirst, StepVr, StepLrs, StepHeader, WithTrail;
  }

  lemma OffStep(c: Config, s: State, cur: Cursor, tail: bytes, gs: seq<Segment>, o: seq<Event>) returns (next: Cursor)
    requires Off(c, s, cur, tail, gs, o)
    ensures Off(c, Step(c, s).s, next, tail, gs, o)
  {
    hide At, ToCome, BeforeHeader, Strayed, Step;
    next := cur;
    if s.code.Stopped? {
      StoppedStays(c, s);
    } else if BeforeHeader(c, s, cur, gs, o) {
      next := BeforeHeaderStep(c, s, cur, tail, gs, o);
    } else {
      next := StepAligned(c, s, cur, tail);
      StrayStep(c, s, cur, tail, o);
    }
  }

  lemma StoppedStays(c: Config, s: State)
    requires s.code.Stopped?
    ensures Step(c, s) == Wait(s)
  {
  }

  lemma {:induction false} OffLoop(c: Config, s: State, cur: Cursor, tail: bytes, gs: seq<Segment>, o: seq<Event>)
    returns (next: Cursor)
    requires Off(c, s, cur, tail, gs, o)
    ensures Off(c, Loop(c, s), next, tail, gs, o)
    decreases |s.win| + |s.stash|, Rank(s.code)
  {
    hide At, ToCome, Step, Off;
    next := OffStep(c, s, cur, tail, gs, o);
    if Step(c, s).Go? {
      StepProgress(c, s);
      next := OffLoop(c, Step(c, s).s, next, tail, gs, o);
    }
  }

  lemma OffAppend(c: Config, s: State, cur: Cursor, chunk: bytes, tail: bytes, gs: seq<Segment>, o: seq<Event>)
    requires Off(c, s, cur, chunk + tail, gs, o)
    ensures Off(c, Append(s, chunk), cur, tail, gs, o)
  {
    hide ToCome, SegmentsOk, TapeOk, CursorBytes, TrailerOk, SegmentsLen, DecodeHeader, NoFirst;
    assert (s.win + chunk) + tail == s.win + (chunk + tail);
  }

  lemma OffStopped(c: Config, s: State, cur: Cursor, more: bytes, tail: bytes, gs: seq<Segment>, o: seq<Event>)
    requires s.code.Stopped? && Off(c, s, cur, more, gs, o)
    ensures Off(c, s, cur, tail, gs, o)
  {
  }

  lemma {:induction false} OffFeedAll(c: Config, s: State, cur: Cursor, chunks: seq<bytes>, gs: seq<Segment>,
      o: seq<Event>)
    returns (next: Cursor)
    requires Off(c, s, cur, Joined(chunks), gs, o)
    ensures Off(c, FeedAll(c, s, chunks), next, [], gs, o)
    decreases |chunks|
  {
    hide At, ToCome, Loop, Off;
    next := cur;
    if chunks != [] {
      var tail := Joined(chunks[1..]);
      OffAppend(c, s, cur, chunks[0], tail, gs, o);
      if s.code.Stopped? {
        OffStopped(c, s, cur, Joined(chunks), tail, gs, o);
      } else if s.win + chunks[0] != [] {
        next := OffLoop(c, Append(s, chunks[0]), cur, tail, gs, o);
      } else {
        assert Append(s, chunks[0]) == s;
      }
      next := OffFeedAll(c, Feed(c, s, chunks[0]), next, chunks[1..], gs, o);
    }
  }

  lemma StartOff(c: Config, s: State, vs: seq<seq<Segment>>)
    requires TapeOk(vs) && BetweenRecords(c, s) && HasChannel(c, s.dec)
    requires OneRecord(Flatten(vs)) && DecodeHeader(Flatten(vs)[0].body).Fail?
    ensures Off(c, s, Start(vs), TapeBytes(vs), Flatten(vs), s.out)
  {
    hide DecodeHeader;
    assert ToCome(Start(vs)) == Flatten(vs);
    assert ([] + []) + ([] + TapeBytes(vs)) == TapeBytes(vs);
  }

  lemma HeaderComesFirst(c: Config, gs: seq<Segment>)
    requires OneRecord(gs) && TapeEvents(c, gs).Some?
    ensures Events(TapeEvents(c, gs)) != [] && Events(TapeEvents(c, gs))[0].HeaderRead?
  {
    hide CurveEvents, DecodeHeader;
  }

  /** The first record after the frames were defined, when reading those has left a current channel: it is
      reported, whatever the chunks, if and only if its header ends in its first segment.  If it does, the end of
      the file is as it is without a current channel.

      The theorem is about one record, because with more of them the "only if" is false: DlisLuckyFile has a file
      in which the bytes of a cut header are stashed, and turn up in front of the second record. */
  lemma FirstRecordComesThrough(c: Config, s: State, vs: seq<seq<Segment>>, chunks: seq<bytes>)
    requires TapeOk(vs) && BetweenRecords(c, s) && HasChannel(c, s.dec)
    requires OneRecord(Flatten(vs)) && TapeEvents(c, Flatten(vs)).Some?
    requires Joined(chunks) == TapeBytes(vs)
    ensures var t := FeedAll(c, s, chunks);
            var gs := Flatten(vs);
            && (t.out == s.out + Events(TapeEvents(c, gs)) <==> DecodeHeader(gs[0].body).Got?)
            && (DecodeHeader(gs[0].body).Got? ==>
                  (BetweenRecords(c, t) <==> gs[|gs| - 1].body != []) && (t.code.Stopped? <==> !EndsBare(gs)))
  {
    var gs := Flatten(vs);
    OneRecordEnds(gs);
    EmptyHeaderFails();
    hide At, ToCome, FeedAll, TapeEvents, DecodeHeader, Off, Flatten, EndsBare, EndsFull, FollowedFull;
    if DecodeHeader(gs[0].body).Got? {
      CutsDoNotMatter(c, s, vs, chunks);
    } else {
      var t := FeedAll(c, s, chunks);
      StartOff(c, s, vs);
      var next := OffFeedAll(c, s, Start(vs), chunks, gs, s.out);
      OffMeans(c, t, next, gs, s.out);
      HeaderComesFirst(c, gs);
      var es := Events(TapeEvents(c, gs));
      assert (s.out + es)[|s.out|] == es[0];
    }
  }

  lemma OffMeans(c: Config, s: State, cur: Cursor, gs: seq<Segment>, o: seq<Event>)
    requires Off(c, s, cur, [], gs, o)
    ensures NoHeaderAfter(s.out, o)
  {
  }

  lemma OneRecordEnds(gs: seq<Segment>)
    requires OneRecord(gs)
    ensures EndsFull(gs) <==> gs[0].body != [] && gs[|gs| - 1].body != []
    ensures FollowedFull(gs) <==> gs[0].body != []
  {
    assert forall i :: 0 < i < |gs| ==> gs[i] == gs[1..][i - 1];
    assert EndsRecord(gs, |gs| - 1) && AtFollowedEnd(gs, 0);
    assert forall i :: 0 < i < |gs| ==> !AtFollowedEnd(gs, i);
  }
}
