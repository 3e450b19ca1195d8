/** dlis_read copies each chunk behind the unread bytes without asking whether there is room.  There is, for
    every file whose segments are not too long and whose frames have no ASCII channels: a value or a header
    that does not decode is short, so the stash stays short, and the loop never rests with more than one
    segment unread.  What the bodies hold does not matter.  DlisOverrun has the files for which there is none. */
module DlisCapacity {
  import opened Bytes
  import opened Rp66Delivery
  import opened Rp66Values
  import opened DlisMachine
  import opened DlisTape
  import opened DlisFraming
  import opened DlisFirstRecord
  import opened DlisReader

  /** The longest run of bytes that can fail to be one value: one byte less than the longest OBJREF. */
  const LONGEST_STASH: nat := 516

  /** A code whose values have a longest encoding. */
  predicate Bounded(repcode: int) { 1 <= repcode < REPCODE_MAX && repcode != 20 && repcode != ATTREF }

  predicate BoundedFrames(c: Config)
  {
    forall f, i :: 0 <= f < |c.frames| && 0 <= i < |c.frames[f].channels| ==> Bounded(c.frames[f].channels[i].repcode)
  }

  lemma ObnameFails(b: bytes)
    requires DecodeObname(b).Fail?
    ensures |b| <= 260
  {
  }

  lemma ObnameLength(b: bytes)
    requires DecodeObname(b).Got?
    ensures DecodeObname(b).len <= 261
  {
  }

  lemma HeaderFails(b: bytes)
    requires DecodeHeader(b).Fail?
    ensures |b| <= 264
  {
    hide DecodeObname;
    if DecodeObname(b).Fail? {
      ObnameFails(b);
    } else {
      ObnameLength(b);
    }
  }

  lemma ValueFails(repcode: int, b: bytes)
    requires Bounded(repcode) && DecodeValue(repcode, b).Fail?
    ensures |b| <= LONGEST_STASH
  {
    hide DecodeObname;
    if repcode == 23 && b != [] {
      ObnameFails(b);
    } else if repcode == 24 && b != [] {
      if DecodeIdent(b).Got? {
        ObnameFails(b[DecodeIdent(b).len..]);
      }
    }
  }

  /** A run of values that is not complete stops short of the end by less than a value. */
  lemma {:induction false} RunStops(repcode: int, n: nat, b: bytes)
    requires Bounded(repcode) && |DecodeRun(repcode, n, b).values| < n
    ensures |b| - DecodeRun(repcode, n, b).len <= LONGEST_STASH
    decreases n
  {
    hide DecodeValue, DecodeRun;
    RunUnfolds(repcode, n, b);
    var d := DecodeValue(repcode, b);
    if d.Fail? {
      ValueFails(repcode, b);
    } else {
      RunStops(repcode, n - 1, b[d.len..]);
    }
  }

  /** The values being read are of a channel of a frame. */
  predicate KnownCode(d: Decoding) { !Fresh(d) ==> Bounded(d.repcode) }

  predicate Short(s: State) { |s.stash| <= LONGEST_STASH && KnownCode(s.dec) }

  lemma HeaderStashShort(c: Config, s: State)
    requires Short(s) && s.trail >= 0 && s.code.ExpectingIflrHeader?
    ensures Short(StepHeader(c, s).s)
  {
    hide DecodeHeader, FindFrame;
    if DecodeHeader(BodyInWindow(s)).Fail? {
      HeaderFails(BodyInWindow(s));
    }
  }

  lemma DataStashShort(c: Config, s: State)
    requires BoundedFrames(c) && Short(s) && s.trail >= 0 && s.code.ExpectingIflrData?
    ensures Short(StepData(c, s).s)
  {
    hide DecodeRun, NewIndex, Deliver;
    if MayLoad(c, s.dec) {
      var d := LoadChannel(c, s.dec);
      if d.cnt < d.dim {
        var body := BodyInWindow(s);
        if |ValuesIn(d, body).values| < d.dim - d.cnt {
          RunStops(d.repcode, d.dim - d.cnt, body);
        }
      }
    }
  }

  lemma StepShort(c: Config, s: State)
    requires BoundedFrames(c) && Short(s)
    ensures Short(Step(c, s).s)
  {
    hide StepHeader, StepData;
    var s1 := WithTrail(s);
    if !s1.code.Stopped? && s1.trail >= 0 {
      if s1.code.ExpectingIflrHeader? {
        HeaderStashShort(c, s1);
      } else if s1.code.ExpectingIflrData? {
        DataStashShort(c, s1);
      }
    }
  }

  // ----- What is unread when the loop rests -----

  predicate SegmentsWithin(gs: seq<Segment>, m: nat) { forall i :: 0 <= i < |gs| ==> SegmentLen(gs[i]) <= m }

  predicate InsideSegment(code: Code)
  {
    code.ExpectingIflrHeader? || code.ExpectingIflrData? || code.ExpectingTrailing?
  }

  /** The segment being read is one of at most m bytes, with a stash in front. */
  predicate Within(s: State, m: nat)
  {
    InsideSegment(s.code) ==> s.lrsRem <= m - 4 + LONGEST_STASH
  }

  /** At most 255 bytes of padding, and four others. */
  function LongestTrailer(m: nat): (n: nat)
  {
    Max(0, Min(259, m - 4))
  }

  ghost predicate Roomy(c: Config, s: State, cur: Cursor, tail: bytes, m: nat)
  {
    s.code.Stopped? ||
    (At(s, cur, tail) && Short(s) && SegmentsWithin(ToCome(cur), m) && Within(s, m)
     && |cur.trailer| <= LongestTrailer(m))
  }

  /** The most that is unread and stashed when the loop rests: a padded segment with a stash in front, but for its
      last byte; a stash in front of a trailer; a stash and most of a header. */
  function RestBound(m: nat): (n: nat)
  {
    Max(LONGEST_STASH + 3, Max(m + LONGEST_STASH - 5, LONGEST_STASH + LongestTrailer(m)))
  }

  predicate Rested(s: State, m: nat)
  {
    s.code.Stopped? || |s.win| + |s.stash| <= RestBound(m)
  }

  lemma VrRests(s: State, cur: Cursor, tail: bytes)
    requires At(s, cur, tail) && s.code.ExpectingVr? && StepVr(s).Wait?
    ensures |StepVr(s).s.win| < 4 && StepVr(s).s.stash == s.stash
  {
    VrAligned(s, cur, tail);
  }

  lemma LrsRests(c: Config, s: State, cur: Cursor, tail: bytes)
    requires At(s, cur, tail) && s.code.ExpectingLrs? && StepLrs(c, s).Wait?
    ensures |StepLrs(c, s).s.win| < 4 && StepLrs(c, s).s.stash == s.stash
  {
    LrsAligned(c, s, cur, tail);
  }

  lemma HeaderRests(c: Config, s: State)
    requires s.trail >= 0 && StepHeader(c, s).Wait?
    ensures StepHeader(c, s).s.code.Stopped? || (StepHeader(c, s).s == s && |s.win| <= 264)
  {
    hide DecodeHeader, FindFrame;
    if DecodeHeader(BodyInWindow(s)).Fail? {
      HeaderFails(BodyInWindow(s));
    }
  }

  lemma DataRests(c: Config, s: State)
    requires BoundedFrames(c) && Short(s) && s.trail >= 0 && StepData(c, s).Wait?
    ensures var t := StepData(c, s).s;
            t.code.Stopped? || (|t.win| <= LONGEST_STASH + s.trail && t.stash == s.stash)
  {
    hide DecodeRun, NewIndex, Deliver;
    if MayLoad(c, s.dec) {
      var d := LoadChannel(c, s.dec);
      if d.cnt < d.dim {
        var body := BodyInWindow(s);
        if |ValuesIn(d, body).values| < d.dim - d.cnt {
          RunStops(d.repcode, d.dim - d.cnt, body);
        }
      }
    }
  }

  lemma StepRests(c: Config, s: State, cur: Cursor, tail: bytes, m: nat)
    requires BoundedFrames(c) && Roomy(c, s, cur, tail, m) && Step(c, s).Wait?
    ensures Rested(Step(c, s).s, m)
  {
    hide StepVr, StepLrs, StepHeader, StepData, CursorOk, CursorBytes, TrailerOk, ToCome, KnownCode;
    if !s.code.Stopped? {
      TrailFound(s, cur, tail);
      var s1 := WithTrail(s);
      if s1.trail >= 0 {
        match s1.code
        case ExpectingVr => VrRests(s1, cur, tail);
        case ExpectingLrs => LrsRests(c, s1, cur, tail);
        case ExpectingIflrHeader => HeaderRests(c, s1);
        case ExpectingIflrData => DataRests(c, s1);
        case ExpectingTrailing =>
      }
    }
  }

  lemma HeaderWithin(c: Config, s: State)
    requires s.trail >= 0
    ensures StepHeader(c, s).s.lrsRem <= s.lrsRem
  {
    hide DecodeHeader, FindFrame;
  }

  lemma DataWithin(c: Config, s: State)
    requires s.trail >= 0
    ensures StepData(c, s).s.lrsRem <= s.lrsRem
  {
    hide ValuesIn, NewIndex, BodyInWindow, LoadChannel, MayLoad, Deliver, HasChannel;
  }

  lemma LrsWithin(c: Config, s: State, cur: Cursor, tail: bytes, m: nat)
    requires At(s, cur, tail) && s.code.ExpectingLrs? && Short(s) && SegmentsWithin(ToCome(cur), m)
    ensures Within(StepLrs(c, s).s, m)
  {
    LrsAligned(c, s, cur, tail);
    ToComeUnfolds(s, cur);
    hide StepLrs, CursorOk, CursorBytes, TrailerOk, ToCome;
    assert SegmentLen(ToCome(cur)[0]) <= m;
  }

  lemma NextWithin(c: Config, s: State, cur: Cursor, tail: bytes, m: nat)
    requires Roomy(c, s, cur, tail, m) && !s.code.Stopped?
    ensures Step(c, s).s.code.Stopped? || Within(Step(c, s).s, m)
  {
    hide StepLrs, StepHeader, StepData, CursorOk, CursorBytes, TrailerOk, ToCome, Within, WithTrail;
    TrailFound(s, cur, tail);
    var s1 := WithTrail(s);
    SameWithin(s, s1, m);
    if s1.trail >= 0 {
      match s1.code
      case ExpectingLrs => LrsWithin(c, s1, cur, tail, m);
      case ExpectingIflrHeader => HeaderWithin(c, s1); StillWithin(s1, StepHeader(c, s1).s, m);
      case ExpectingIflrData => DataWithin(c, s1); StillWithin(s1, StepData(c, s1).s, m);
      case _ => OutsideWithin(s1, StepVr(s1).s, m); OutsideWithin(s1, StepTrailing(s1).s, m);
    }
  }

  lemma SameWithin(s: State, t: State, m: nat)
    requires Within(s, m) && t.code == s.code && t.lrsRem == s.lrsRem
    ensures Within(t, m)
  {
  }

  lemma StillWithin(s: State, t: State, m: nat)
    requires Within(s, m) && InsideSegment(s.code) && t.lrsRem <= s.lrsRem
    ensures Within(t, m)
  {
  }

  lemma OutsideWithin(s: State, t: State, m: nat)
    requires !InsideSegment(t.code) || (Within(s, m) && t == s)
    ensures Within(t, m)
  {
  }

  lemma TrailersWithin(s: State, cur: Cursor, tail: bytes, m: nat)
    requires At(s, cur, tail) && SegmentsWithin(ToCome(cur), m)
    ensures s.code.ExpectingLrs? ==> ToCome(cur) != [] && |ToCome(cur)[0].trailer| <= LongestTrailer(m)
  {
    hide CursorBytes;
    if s.code.ExpectingLrs? {
      assert SegmentOk(cur.segs[0]) && ToCome(cur)[0] == cur.segs[0];
      assert SegmentLen(ToCome(cur)[0]) <= m;
    }
  }

  lemma StepRoomy(c: Config, s: State, cur: Cursor, tail: bytes, m: nat) returns (next: Cursor)
    requires BoundedFrames(c) && Roomy(c, s, cur, tail, m)
    ensures Roomy(c, Step(c, s).s, next, tail, m)
  {
    hide Step, At, ToCome, Within, Short, LongestTrailer;
    next := cur;
    if s.code.Stopped? {
      StoppedStays(c, s);
    } else {
      StepShort(c, s);
      NextWithin(c, s, cur, tail, m);
      next := StepAligned(c, s, cur, tail);
      TrailersWithin(s, cur, tail, m);
    }
  }

  lemma {:induction false} LoopRoomy(c: Config, s: State, cur: Cursor, tail: bytes, m: nat) returns (next: Cursor)
    requires BoundedFrames(c) && Roomy(c, s, cur, tail, m)
    ensures Roomy(c, Loop(c, s), next, tail, m) && Rested(Loop(c, s), m)
    decreases |s.win| + |s.stash|, Rank(s.code)
  {
    hide Step, Roomy, Rested;
    next := StepRoomy(c, s, cur, tail, m);
    if Step(c, s).Go? {
      StepProgress(c, s);
      next := LoopRoomy(c, Step(c, s).s, next, tail, m);
    } else {
      StepRests(c, s, cur, tail, m);
    }
  }

  lemma RoomyAppend(c: Config, s: State, cur: Cursor, chunk: bytes, tail: bytes, m: nat)
    requires Roomy(c, s, cur, chunk + tail, m)
    ensures Roomy(c, Append(s, chunk), cur, tail, m)
  {
    hide ToCome, SegmentsOk, TapeOk, CursorBytes, TrailerOk, SegmentsLen, SegmentsWithin;
    assert (s.win + chunk) + tail == s.win + (chunk + tail);
  }

  lemma {:induction false} FitsFrom(c: Config, s: State, cur: Cursor, chunks: seq<bytes>, m: nat, n: nat)
    requires BoundedFrames(c) && Roomy(c, s, cur, Joined(chunks), m) && Rested(s, m)
    requires forall i :: 0 <= i < |chunks| ==> |chunks[i]| <= n
    requires RestBound(m) + n <= DLIS_BUFF_SIZE
    ensures FitsAll(c, s, chunks)
    decreases |chunks|
  {
    hide Roomy, Loop, Rested;
    if chunks != [] {
      var tail := Joined(chunks[1..]);
      RoomyAppend(c, s, cur, chunks[0], tail, m);
      RestedFits(s, chunks[0], m, n);
      var next := cur;
      if s.code.Stopped? {
        StoppedRoomy(c, s, next, tail, m);
      } else if s.win + chunks[0] != [] {
        next := LoopRoomy(c, Append(s, chunks[0]), cur, tail, m);
      } else {
        assert Append(s, chunks[0]) == s;
      }
      FitsFrom(c, Feed(c, s, chunks[0]), next, chunks[1..], m, n);
    }
  }

  lemma StoppedRoomy(c: Config, s: State, cur: Cursor, tail: bytes, m: nat)
    requires s.code.Stopped?
    ensures Roomy(c, s, cur, tail, m)
  {
  }

  lemma RestedFits(s: State, chunk: bytes, m: nat, n: nat)
    requires Rested(s, m) && |chunk| <= n && RestBound(m) + n <= DLIS_BUFF_SIZE
    ensures s.code.Stopped? || |s.win| + |s.stash| + |chunk| <= DLIS_BUFF_SIZE
  {
  }

  lemma StartRoomy(c: Config, s: State, vs: seq<seq<Segment>>, m: nat)
    requires TapeOk(vs) && BetweenRecords(c, s) && SegmentsWithin(Flatten(vs), m)
    ensures Roomy(c, s, Start(vs), TapeBytes(vs), m)
  {
    assert ToCome(Start(vs)) == Flatten(vs);
    assert ([] + []) + ([] + TapeBytes(vs)) == TapeBytes(vs);
  }

  /** No chunk overruns the buffer, whatever the bodies of the segments hold, if no channel is ASCII.  With the
      segments of at most 16384 bytes that section 2.3.6 of API RP66 V1 allows, and the 4000 bytes do_parse reads at
      a time, the sum is far below the 65536 bytes of a buffer. */
  lemma ChunksFit(c: Config, s: State, vs: seq<seq<Segment>>, chunks: seq<bytes>, m: nat, n: nat)
    requires BoundedFrames(c) && TapeOk(vs) && BetweenRecords(c, s) && Joined(chunks) == TapeBytes(vs)
    requires SegmentsWithin(Flatten(vs), m)
    requires forall i :: 0 <= i < |chunks| ==> |chunks[i]| <= n
    requires RestBound(m) + n <= DLIS_BUFF_SIZE
    ensures FitsAll(c, s, chunks)
  {
    hide Flatten, Roomy, RestBound;
    StartRoomy(c, s, vs, m);
    FitsFrom(c, s, Start(vs), chunks, m, n);
  }
}
