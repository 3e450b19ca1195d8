/** What the records of a tape mean, with no segments, no buffers and no stash: the body of a logical record
    is one run of bytes, decoded from front to back. */
module DlisRecords {
  import opened Bytes
  import opened Rp66Delivery
  import opened Rp66Values
  import opened DlisMachine
  import opened DlisTape

  /** The events there are, if any. */
  function Events(o: Option<seq<Event>>): seq<Event>
  {
    match o case None => [] case Some(es) => es
  }

  /** The bodies of the segments that continue a record. */
  function Continued(gs: seq<Segment>): bytes
  {
    if gs == [] || IsFirst(gs[0].attr) then [] else gs[0].body + Continued(gs[1..])
  }

  /** The segments from the next record on. */
  function Beyond(gs: seq<Segment>): (rest: seq<Segment>)
    ensures |rest| <= |gs|
  {
    if gs == [] || IsFirst(gs[0].attr) then gs else Beyond(gs[1..])
  }

  /** The channels of frame f from position i on, decoded from d, which they use up. */
  function CurveEvents(c: Config, f: nat, i: nat, index: Index, d: bytes): Option<seq<Event>>
    requires f < |c.frames| && i <= |c.frames[f].channels|
    decreases |c.frames[f].channels| - i
  {
    var channels := c.frames[f].channels;
    if i == |channels| then
      if d == [] then Some([]) else None
    else
      var ch := channels[i];
      if ch.dimension <= 0 || !Readable(ch.repcode) then None
      else
        var r := DecodeRun(ch.repcode, ch.dimension, d);
        if |r.values| < ch.dimension then None
        else CurveThen(c, f, i, NewIndex(c, f, i, index, r.values), DeliverAll(r.values), d[r.len..])
  }

  /** One curve, and the channels after it. */
  function CurveThen(c: Config, f: nat, i: nat, index: Index, vs: seq<Value>, d: bytes): Option<seq<Event>>
    requires f < |c.frames| && i < |c.frames[f].channels|
    decreases |c.frames[f].channels| - i, 0
  {
    match CurveEvents(c, f, i + 1, index, d)
    case None => None
    case Some(es) => Some([CurveWritten(f, i, index, vs)] + es)
  }

  /** A record whose body is a header and exactly one row of a known frame that has channels. */
  function RecordEvents(c: Config, body: bytes): Option<seq<Event>>
  {
    match DecodeHeader(body)
    case Fail => None
    case Got((name, number), k) =>
      var f := FindFrame(c, name, 0);
      if f < 0 || c.frames[f].channels == [] then None
      else
        match CurveEvents(c, f, 0, Number(number), body[k..])
        case None => None
        case Some(es) => Some([HeaderRead(f, number)] + es)
  }

  /** The records of a tape, one after the other. */
  function TapeEvents(c: Config, gs: seq<Segment>): Option<seq<Event>>
    decreases |gs|
  {
    if gs == [] then Some([])
    else if !IsFirst(gs[0].attr) then None
    else
      match (RecordEvents(c, gs[0].body + Continued(gs[1..])), TapeEvents(c, Beyond(gs[1..])))
      case (Some(a), Some(b)) => Some(a + b)
      case _ => None
  }

  /** No record begins or ends with a segment that has no body.  In between, segments may be empty. */
  predicate EndsFull(gs: seq<Segment>)
  {
    forall i :: 0 <= i < |gs| && (IsFirst(gs[i].attr) || EndsRecord(gs, i)) ==> gs[i].body != []
  }

  predicate EndsRecord(gs: seq<Segment>, i: nat)
    requires i < |gs|
  {
    i + 1 == |gs| || IsFirst(gs[i + 1].attr)
  }

  lemma EndsFullUnfolds(gs: seq<Segment>)
    requires gs != []
    ensures EndsFull(gs) <==> ((IsFirst(gs[0].attr) || EndsRecord(gs, 0) ==> gs[0].body != []) && EndsFull(gs[1..]))
  {
    var t := gs[1..];
    assert forall i :: 0 <= i < |t| ==> t[i] == gs[i + 1] && EndsRecord(t, i) == EndsRecord(gs, i + 1);
    if EndsFull(t) && (IsFirst(gs[0].attr) || EndsRecord(gs, 0) ==> gs[0].body != []) {
      forall i | 0 <= i < |gs| && (IsFirst(gs[i].attr) || EndsRecord(gs, i)) ensures gs[i].body != [] {
        if i > 0 {
          assert t[i - 1] == gs[i];
        }
      }
    }
    if EndsFull(gs) {
      forall i | 0 <= i < |t| && (IsFirst(t[i].attr) || EndsRecord(t, i)) ensures t[i].body != [] {
        assert t[i] == gs[i + 1];
      }
    }
  }

  /** Segments that continue a record without a byte in any of them. */
  lemma {:induction false} NothingContinued(gs: seq<Segment>)
    requires gs != [] && !IsFirst(gs[0].attr) && Continued(gs) == []
    ensures !EndsFull(gs)
  {
    EndsFullUnfolds(gs);
    assert gs[0].body == [];
    if !EndsRecord(gs, 0) {
      assert Continued(gs[1..]) == [];
      NothingContinued(gs[1..]);
    }
  }

  // ----- Empty segments at the end of a file do less harm -----

  /** No record begins with a segment that has no body, and none but the last ends with one. */
  predicate FollowedFull(gs: seq<Segment>)
  {
    forall i :: 0 <= i < |gs| && AtFollowedEnd(gs, i) ==> gs[i].body != []
  }

  predicate AtFollowedEnd(gs: seq<Segment>, i: nat)
    requires i < |gs|
  {
    IsFirst(gs[i].attr) || (i + 1 < |gs| && IsFirst(gs[i + 1].attr))
  }

  lemma FollowedFullUnfolds(gs: seq<Segment>)
    requires gs != []
    ensures FollowedFull(gs) <==> (AtFollowedEnd(gs, 0) ==> gs[0].body != []) && FollowedFull(gs[1..])
  {
    var t := gs[1..];
    assert forall i :: 0 <= i < |t| ==> t[i] == gs[i + 1] && AtFollowedEnd(t, i) == AtFollowedEnd(gs, i + 1);
    if FollowedFull(t) && (AtFollowedEnd(gs, 0) ==> gs[0].body != []) {
      forall i | 0 <= i < |gs| && AtFollowedEnd(gs, i) ensures gs[i].body != [] {
        if i > 0 {
          assert t[i - 1] == gs[i];
        }
      }
    }
    if FollowedFull(gs) {
      forall i | 0 <= i < |t| && AtFollowedEnd(t, i) ensures t[i].body != [] {
        assert t[i] == gs[i + 1];
      }
    }
  }

  /** After a record that is complete, segments without a body must be the last of all. */
  lemma {:induction false} NothingFollows(gs: seq<Segment>)
    requires gs != [] && !IsFirst(gs[0].attr) && Continued(gs) == []
    ensures FollowedFull(gs) <==> Beyond(gs) == []
  {
    FollowedFullUnfolds(gs);
    assert gs[0].body == [];
    if |gs| > 1 && !IsFirst(gs[1].attr) {
      assert Continued(gs[1..]) == [];
      NothingFollows(gs[1..]);
    }
  }

  /** A segment of which there is nothing but its header. */
  predicate Bare(g: Segment) { !IsFirst(g.attr) && g.body == [] && g.trailer == [] }

  /** Only the very last segment may be empty at the end of a record, and then it must be bare. */
  predicate EndsBare(gs: seq<Segment>)
  {
    EndsFull(gs) || (gs != [] && Bare(gs[|gs| - 1]) && EndsFull(gs[..|gs| - 1]))
  }

  lemma FrontUnfolds(gs: seq<Segment>)
    requires |gs| > 1
    ensures var front := gs[..|gs| - 1];
            && front[0] == gs[0] && front[1..] == gs[1..][..|gs[1..]| - 1] && gs[1..][|gs[1..]| - 1] == gs[|gs| - 1]
            && (EndsRecord(front, 0) <==> |gs| == 2 || IsFirst(gs[1].attr))
  {
  }

  lemma EndsBareFirst(gs: seq<Segment>)
    requires gs != [] && IsFirst(gs[0].attr)
    ensures EndsBare(gs) <==> gs[0].body != [] && EndsBare(gs[1..])
  {
    hide EndsFull;
    EndsFullUnfolds(gs);
    if |gs| > 1 {
      FrontUnfolds(gs);
      EndsFullUnfolds(gs[..|gs| - 1]);
    } else {
      NoSegmentsEndFull();
    }
  }

  lemma NoSegmentsEndFull()
    ensures EndsFull([])
  {
  }

  lemma EndsBareContinued(gs: seq<Segment>)
    requires gs != [] && !IsFirst(gs[0].attr) && Continued(gs) != []
    ensures EndsBare(gs) <==> EndsBare(gs[1..])
  {
    hide EndsFull;
    EndsFullUnfolds(gs);
    NoSegmentsEndFull();
    if |gs| > 1 {
      FrontUnfolds(gs);
      EndsFullUnfolds(gs[..|gs| - 1]);
      assert !IsFirst(gs[1].attr) ==> Continued(gs[1..]) == gs[1].body + Continued(gs[2..]);
      if |gs| == 2 {
        assert gs[2..] == [] && Continued([]) == [];
      }
    }
  }

  lemma {:induction false} ContinuedFront(gs: seq<Segment>)
    requires gs != [] && Continued(gs) == []
    ensures Continued(gs[..|gs| - 1]) == []
  {
    if |gs| > 1 && !IsFirst(gs[0].attr) {
      FrontUnfolds(gs);
      ContinuedFront(gs[1..]);
    }
  }

  lemma EndsBareNothing(gs: seq<Segment>)
    requires gs != [] && !IsFirst(gs[0].attr) && Continued(gs) == []
    ensures EndsBare(gs) <==> |gs| == 1 && gs[0].trailer == []
  {
    hide EndsFull;
    NothingContinued(gs);
    NoSegmentsEndFull();
    assert gs[0].body == [];
    if |gs| > 1 {
      FrontUnfolds(gs);
      ContinuedFront(gs);
      NothingContinued(gs[..|gs| - 1]);
    }
  }

  // ----- Data that is partly decoded -----

  /** The curves still to be written, when L is the rest of the record. */
  function Pending(c: Config, d: Decoding, L: bytes): Option<seq<Event>>
  {
    if !HasChannel(c, d) then None
    else if Fresh(d) then CurveEvents(c, d.frame, d.chan, d.index, L)
    else if !Readable(d.repcode) then None
    else
      var r := DecodeRun(d.repcode, d.dim - d.cnt, L);
      if |r.values| < d.dim - d.cnt then None
      else CurveThen(c, d.frame, d.chan, NewIndex(c, d.frame, d.chan, d.index, r.values),
                     d.values + DeliverAll(r.values), L[r.len..])
  }

  /** No value is left over from a channel that is complete. */
  predicate Clean(d: Decoding) { Fresh(d) ==> d.values == [] }

  lemma LoadPending(c: Config, d: Decoding, L: bytes)
    requires Clean(d) && Pending(c, d, L).Some?
    ensures var t := LoadChannel(c, d);
            && HasChannel(c, t) && !Fresh(t) && Pending(c, t, L) == Pending(c, d, L) && Readable(t.repcode)
  {
    hide DecodeRun;
    if Fresh(d) {
      var ch := c.frames[d.frame].channels[d.chan];
      var r := DecodeRun(ch.repcode, ch.dimension, L);
      assert d.values + DeliverAll(r.values) == DeliverAll(r.values);
    }
  }

  /** An index taken from the last of several values does not depend on where they were cut. */
  lemma NewIndexCut(c: Config, f: int, chan: nat, index: Index, ps: seq<Value>, rs: seq<Value>)
    ensures NewIndex(c, f, chan, NewIndex(c, f, chan, index, ps), rs) == NewIndex(c, f, chan, index, ps + rs)
  {
    if rs == [] {
      assert ps + rs == ps;
    } else {
      assert (ps + rs)[|ps + rs| - 1] == rs[|rs| - 1];
    }
  }

  /** Taking the values found in the first m bytes leaves the same curves to write. */
  lemma TakePending(c: Config, d: Decoding, L: bytes, m: nat)
    requires !Fresh(d) && Readable(d.repcode) && Pending(c, d, L).Some? && m <= |L|
    ensures var r := ValuesIn(d, L[..m]);
            var t := Took(c, d, r.values);
            && r.len <= m
            && if Fresh(t) then
                 CurveThen(c, d.frame, d.chan, t.index, t.values, L[r.len..]) == Pending(c, d, L)
               else
                 m < |L| && Pending(c, t, L[r.len..]) == Pending(c, d, L)
  {
    hide CurveThen, CurveEvents, DecodeRun, NewIndex, Deliver;
    var n := d.dim - d.cnt;
    var r := DecodeRun(d.repcode, n, L[..m]);
    var rest := DecodeRun(d.repcode, n - |r.values|, L[r.len..]);
    DecodeRunCut(d.repcode, n, L, m, r, rest);
    var all := DecodeRun(d.repcode, n, L);
    var t := Took(c, d, r.values);
    NewIndexCut(c, d.frame, d.chan, d.index, r.values, rest.values);
    DeliverAllJoin(r.values, rest.values);
    assert (d.values + DeliverAll(r.values)) + DeliverAll(rest.values) == d.values + DeliverAll(all.values);
    assert L[r.len..][rest.len..] == L[all.len..];
    assert L[..|L|] == L;
    if Fresh(t) {
      RunUnfolds(d.repcode, 0, L[r.len..]);
      assert r.values + [] == r.values;
    }
  }

  /** After a curve: either another channel, which needs bytes, or the exact end of the record. */
  lemma CurveSplits(c: Config, f: nat, i: nat, index: Index, vs: seq<Value>, rest: bytes)
    requires f < |c.frames| && i < |c.frames[f].channels|
    requires CurveThen(c, f, i, index, vs, rest).Some?
    ensures CurveEvents(c, f, i + 1, index, rest).Some?
    ensures Events(CurveThen(c, f, i, index, vs, rest)) ==
            [CurveWritten(f, i, index, vs)] + Events(CurveEvents(c, f, i + 1, index, rest))
    ensures if i + 1 < |c.frames[f].channels| then rest != []
            else rest == [] && CurveEvents(c, f, i + 1, index, rest) == Some([])
  {
    if i + 1 < |c.frames[f].channels| {
      NoCurveFromNothing(c, f, i + 1, index);
    }
  }

  /** A channel needs bytes. */
  lemma NoCurveFromNothing(c: Config, f: nat, i: nat, index: Index)
    requires f < |c.frames| && i < |c.frames[f].channels|
    ensures CurveEvents(c, f, i, index, []).None?
  {
    hide CurveThen;
    var ch := c.frames[f].channels[i];
    if ch.dimension > 0 && Readable(ch.repcode) {
      RunUnfolds(ch.repcode, ch.dimension, []);
    }
  }

  /** A curve that is complete leaves what the next channels hold. */
  lemma CurvePending(c: Config, d: Decoding, rest: bytes)
    requires HasChannel(c, d) && Fresh(d) && CurveThen(c, d.frame, d.chan, d.index, d.values, rest).Some?
    ensures var t := NextChannel(d);
            && Fresh(t) && Clean(t)
            && Events(CurveThen(c, d.frame, d.chan, d.index, d.values, rest)) == [Curve(d)] + Events(Pending(c, t,
                rest))
            && if HasChannel(c, t) then rest != [] && Pending(c, t, rest).Some?
               else rest == []
  {
    hide CurveThen, DecodeRun;
    CurveSplits(c, d.frame, d.chan, d.index, d.values, rest);
    hide CurveEvents;
  }

  lemma HeaderStable(b: bytes, m: nat)
    requires m <= |b|
    ensures Stable(DecodeHeader(b), DecodeHeader(b[..m]), m)
  {
    ObnameStable(b, m);
    match DecodeObname(b)
    case Fail =>
    case Got(name, k) =>
      if k <= m {
        UvariStable(b[k..], m - k);
        assert b[..m][k..] == b[k..][..m - k];
      }
  }

  /** A header that decodes before the end of its record is the header of the record. */
  lemma RecordOpens(c: Config, d: Decoding, body: bytes, more: bytes, m: nat)
    requires Fresh(d) && d.values == [] && m <= |body|
    requires RecordEvents(c, body + more).Some? && DecodeHeader(body[..m]).Got?
    ensures var Got((name, number), k) := DecodeHeader(body[..m]);
            var f := FindFrame(c, name, 0);
            && k <= m && f >= 0
            && var t := Opened(d, f, number);
            && Fresh(t) && Clean(t) && Pending(c, t, body[k..] + more).Some?
            && Events(RecordEvents(c, body + more)) == [HeaderRead(f, number)] + Events(Pending(c, t, body[k..] + more))
  {
    hide CurveEvents, FindFrame, DecodeHeader;
    assert (body + more)[..m] == body[..m];
    HeaderStable(body + more, m);
    var k := DecodeHeader(body[..m]).len;
    assert (body + more)[k..] == body[k..] + more;
  }

  // ----- Only the bodies of the records matter -----

  function Bodies(gs: seq<Segment>): seq<bytes>
    decreases |gs|
  {
    if gs == [] then [] else [gs[0].body + Continued(gs[1..])] + Bodies(Beyond(gs[1..]))
  }

  predicate StartsRecord(gs: seq<Segment>) { gs != [] ==> IsFirst(gs[0].attr) }

  lemma {:induction false} BeyondStarts(gs: seq<Segment>)
    ensures StartsRecord(Beyond(gs))
  {
    if gs != [] && !IsFirst(gs[0].attr) {
      BeyondStarts(gs[1..]);
    }
  }

  /** Two tapes whose records have the same bodies, cut anywhere, mean the same. */
  lemma {:induction false} SameBodiesSameEvents(c: Config, gs: seq<Segment>, hs: seq<Segment>)
    requires StartsRecord(gs) && StartsRecord(hs) && Bodies(gs) == Bodies(hs)
    ensures TapeEvents(c, gs) == TapeEvents(c, hs)
    decreases |gs|
  {
    hide RecordEvents;
    if gs != [] {
      assert hs != [];
      assert Bodies(gs)[0] == Bodies(hs)[0] && Bodies(gs)[1..] == Bodies(hs)[1..];
      BeyondStarts(gs[1..]);
      BeyondStarts(hs[1..]);
      SameBodiesSameEvents(c, Beyond(gs[1..]), Beyond(hs[1..]));
    }
  }

  // ----- A row that is encoded value by value decodes to its values, channel by channel -----

  /** These bytes decode to these values, in this code, and nothing else. */
  predicate Cells(repcode: int, vs: seq<Value>, bs: seq<bytes>)
  {
    && 0 <= repcode < REPCODE_MAX && |vs| == |bs|
    && forall i :: 0 <= i < |vs| ==> DecodeValue(repcode, bs[i]) == Got(vs[i], |bs[i]|)
  }

  lemma ValueThenTail(repcode: int, b: bytes, v: Value, tail: bytes)
    requires 0 <= repcode < REPCODE_MAX && DecodeValue(repcode, b) == Got(v, |b|)
    ensures DecodeValue(repcode, b + tail) == Got(v, |b|)
  {
    hide DecodeValue;
    ValueStable(repcode, b + tail, |b|);
    assert (b + tail)[..|b|] == b;
  }

  lemma {:induction false} RunDecodes(repcode: int, vs: seq<Value>, bs: seq<bytes>, tail: bytes)
    requires Cells(repcode, vs, bs)
    ensures DecodeRun(repcode, |vs|, Joined(bs) + tail) == Run(vs, |Joined(bs)|)
    decreases |vs|
  {
    hide DecodeValue, DecodeRun;
    var L := Joined(bs) + tail;
    RunUnfolds(repcode, |vs|, L);
    if vs != [] {
      var rest := Joined(bs[1..]) + tail;
      assert L == bs[0] + rest;
      ValueThenTail(repcode, bs[0], vs[0], rest);
      assert L[|bs[0]|..] == rest;
      RunDecodes(repcode, vs[1..], bs[1..], tail);
      assert [vs[0]] + vs[1..] == vs;
    }
  }

  /** One curve a channel, in the order of the frame, under the index of the row. */
  function RowEvents(c: Config, f: nat, i: nat, index: Index, rows: seq<seq<Value>>): (es: seq<Event>)
    ensures |es| == |rows|
    decreases |rows|
  {
    if rows == [] then []
    else
      var index' := NewIndex(c, f, i, index, rows[0]);
      [CurveWritten(f, i, index', rows[0])] + RowEvents(c, f, i + 1, index', rows[1..])
  }

  /** Different values are different curves. */
  lemma {:induction false} RowEventsDiffer(c: Config, f: nat, i: nat, index: Index, index': Index,
      rows: seq<seq<Value>>, others: seq<seq<Value>>)
    requires RowEvents(c, f, i, index, rows) == RowEvents(c, f, i, index', others)
    ensures rows == others
    decreases |rows|
  {
    hide NewIndex;
    assert |rows| == |others|;
    if rows != [] {
      var es, fs := RowEvents(c, f, i, index, rows), RowEvents(c, f, i, index', others);
      assert es[0].values == fs[0].values && es[1..] == fs[1..];
      RowEventsDiffer(c, f, i + 1, NewIndex(c, f, i, index, rows[0]), NewIndex(c, f, i, index', others[0]), rows[1..],
                      others[1..]);
      assert rows == [rows[0]] + rows[1..] && others == [others[0]] + others[1..];
    }
  }

  /** rows[j] are values of channel i + j that its code can encode, as many as the channel has. */
  ghost predicate RowFits(channels: seq<Channel>, i: nat, rows: seq<seq<Value>>)
  {
    && i <= |channels| && |rows| == |channels| - i
    && forall j :: 0 <= j < |rows| ==> ValuesFit(channels[i + j], rows[j])
  }

  ghost predicate ValuesFit(ch: Channel, vs: seq<Value>)
  {
    |vs| == ch.dimension > 0 && forall k :: 0 <= k < |vs| ==> Writable(ch.repcode, vs[k])
  }

  function EncodeValues(repcode: int, vs: seq<Value>): (bs: seq<bytes>)
    requires forall k :: 0 <= k < |vs| ==> Writable(repcode, vs[k])
    ensures |bs| == |vs| && forall k :: 0 <= k < |vs| ==> bs[k] == EncodeValue(repcode, vs[k])
  {
    seq(|vs|, k requires 0 <= k < |vs| => EncodeValue(repcode, vs[k]))
  }

  function EncodeRow(channels: seq<Channel>, i: nat, rows: seq<seq<Value>>): bytes
    requires RowFits(channels, i, rows)
    decreases |rows|
  {
    if rows == [] then []
    else
      assert ValuesFit(channels[i + 0], rows[0]);
      RestFits(channels, i, rows);
      Joined(EncodeValues(channels[i].repcode, rows[0])) + EncodeRow(channels, i + 1, rows[1..])
  }

  lemma RestFits(channels: seq<Channel>, i: nat, rows: seq<seq<Value>>)
    requires RowFits(channels, i, rows) && rows != []
    ensures RowFits(channels, i + 1, rows[1..])
  {
    hide ValuesFit;
    forall j | 0 <= j < |rows[1..]| ensures ValuesFit(channels[i + 1 + j], rows[1..][j]) {
      assert ValuesFit(channels[i + (j + 1)], rows[j + 1]);
    }
  }

  /** What is delivered of values. */
  function Arrived(vs: seq<Value>): (r: seq<Value>)
    ensures |r| == |vs| && forall k :: 0 <= k < |vs| ==> r[k] == Deliver(Packed(vs[k]))
  {
    seq(|vs|, k requires 0 <= k < |vs| => Deliver(Packed(vs[k])))
  }

  function RowArrived(rows: seq<seq<Value>>): (r: seq<seq<Value>>)
    ensures |r| == |rows| && forall j :: 0 <= j < |rows| ==> r[j] == Arrived(rows[j])
  {
    seq(|rows|, j requires 0 <= j < |rows| => Arrived(rows[j]))
  }

  function PackedAll(vs: seq<Value>): (r: seq<Value>)
    ensures |r| == |vs| && forall k :: 0 <= k < |vs| ==> r[k] == Packed(vs[k])
  {
    seq(|vs|, k requires 0 <= k < |vs| => Packed(vs[k]))
  }

  /** A channel reads its values, and what it delivers of them is what arrives. */
  lemma ChannelDecodes(ch: Channel, vs: seq<Value>, tail: bytes)
    requires ValuesFit(ch, vs)
    ensures 0 <= ch.repcode < REPCODE_MAX
    ensures var bs := EncodeValues(ch.repcode, vs);
            DecodeRun(ch.repcode, ch.dimension, Joined(bs) + tail) == Run(PackedAll(vs), |Joined(bs)|)
    ensures DeliverAll(PackedAll(vs)) == Arrived(vs)
  {
    hide DecodeValue, DecodeRun, EncodeValue, Writable, Packed, Deliver;
    var bs := EncodeValues(ch.repcode, vs);
    assert Writable(ch.repcode, vs[0]);
    ValueRoundTrip(ch.repcode, vs[0], []);
    forall k | 0 <= k < |vs| ensures DecodeValue(ch.repcode, bs[k]) == Got(PackedAll(vs)[k], |bs[k]|) {
      ValueRoundTrip(ch.repcode, vs[k], []);
      assert bs[k] + [] == bs[k];
    }
    RunDecodes(ch.repcode, PackedAll(vs), bs, tail);
  }

  /** The index is the same before and after delivery: a scalar is delivered as it is. */
  lemma SameIndex(c: Config, f: int, i: nat, index: Index, vs: seq<Value>)
    ensures NewIndex(c, f, i, index, PackedAll(vs)) == NewIndex(c, f, i, index, Arrived(vs))
  {
    hide CStr, KindLeft;
  }

  lemma {:induction false} RowDecodes(c: Config, f: nat, i: nat, index: Index, rows: seq<seq<Value>>)
    requires f < |c.frames| && RowFits(c.frames[f].channels, i, rows)
    requires forall j :: i <= j < |c.frames[f].channels| ==> Readable(c.frames[f].channels[j].repcode)
    ensures CurveEvents(c, f, i, index, EncodeRow(c.frames[f].channels, i, rows)) ==
            Some(RowEvents(c, f, i, index, RowArrived(rows)))
    decreases |rows|
  {
    hide DecodeRun, NewIndex, EncodeValues, Arrived, PackedAll;
    if rows != [] {
      var channels := c.frames[f].channels;
      var row := EncodeRow(channels, i, rows);
      assert ValuesFit(channels[i + 0], rows[0]);
      RestFits(channels, i, rows);
      var rest := EncodeRow(channels, i + 1, rows[1..]);
      var bs := EncodeValues(channels[i].repcode, rows[0]);
      assert row == Joined(bs) + rest;
      ChannelDecodes(channels[i], rows[0], rest);
      assert row[|Joined(bs)|..] == rest;
      SameIndex(c, f, i, index, rows[0]);
      var index' := NewIndex(c, f, i, index, Arrived(rows[0]));
      RowDecodes(c, f, i + 1, index', rows[1..]);
      var arrived := RowArrived(rows);
      assert arrived[0] == Arrived(rows[0]) && arrived[1..] == RowArrived(rows[1..]);
      LengthOfPacked(rows[0]);
      assert CurveThen(c, f, i, index', arrived[0], rest) ==
             Some([CurveWritten(f, i, index', arrived[0])] + RowEvents(c, f, i + 1, index', arrived[1..]));
    }
  }

  lemma LengthOfPacked(vs: seq<Value>)
    ensures |PackedAll(vs)| == |vs| == |Arrived(vs)|
  {
  }

  /** A frame with an ORIGIN has no row that means anything. */
  lemma {:induction false} UnreadableFails(c: Config, f: nat, i: nat, index: Index, d: bytes, j: nat)
    requires f < |c.frames| && i <= j < |c.frames[f].channels| && !Readable(c.frames[f].channels[j].repcode)
    ensures CurveEvents(c, f, i, index, d).None?
    decreases j - i
  {
    hide DecodeRun, NewIndex, DeliverAll;
    var ch := c.frames[f].channels[i];
    if i < j && ch.dimension > 0 && Readable(ch.repcode) {
      var r := DecodeRun(ch.repcode, ch.dimension, d);
      UnreadableFails(c, f, i + 1, NewIndex(c, f, i, index, r.values), d[r.len..], j);
    }
  }

  ghost predicate AllReadable(channels: seq<Channel>)
  {
    forall j :: 0 <= j < |channels| ==> Readable(channels[j].repcode)
  }

  /** A record written for a known frame, in any codes that have a decoder: it means its header and what is
      delivered of its row, unless a channel has the code ORIGIN, in which case it means nothing. */
  lemma RecordDecodes(c: Config, name: Obname, number: nat, rows: seq<seq<Value>>)
    requires ObnameFits(name) && number < 0x4000_0000
    requires var f := FindFrame(c, name, 0);
             f >= 0 && c.frames[f].channels != [] && RowFits(c.frames[f].channels, 0, rows)
    ensures var f := FindFrame(c, name, 0);
            RecordEvents(c, EncodeObname(name) + EncodeUvari(number) + EncodeRow(c.frames[f].channels, 0, rows))
            == if AllReadable(c.frames[f].channels) then
                 Some([HeaderRead(f, number)] + RowEvents(c, f, 0, Number(number), RowArrived(rows)))
               else None
  {
    hide RowFits, CurveEvents, DecodeObname, DecodeUvari, EncodeObname, EncodeUvari, FindFrame, EncodeRow, Readable;
    var f := FindFrame(c, name, 0);
    var channels := c.frames[f].channels;
    var row := EncodeRow(channels, 0, rows);
    var body := EncodeObname(name) + EncodeUvari(number) + row;
    assert body == EncodeObname(name) + (EncodeUvari(number) + row);
    ObnameRoundTrip(name, EncodeUvari(number) + row);
    assert body[|EncodeObname(name)|..] == EncodeUvari(number) + row;
    UvariRoundTrip(number, row);
    assert body[|EncodeObname(name)| + |EncodeUvari(number)|..] == row;
    if AllReadable(channels) {
      RowDecodes(c, f, 0, Number(number), rows);
    } else {
      var j: nat :| j < |channels| && !Readable(channels[j].repcode);
      UnreadableFails(c, f, 0, Number(number), row, j);
    }
  }

  predicate IsNumber(v: Value) { v.Signed? || v.Unsigned? || v.Float32? || v.Float64? }

  /** One curve of a written row: the values of channel j in their order, under the number of the row, or under the
      last value of the first channel in a frame with an index. */
  ghost predicate CurveOf(e: Event, f: nat, number: nat, indexed: bool, rows: seq<seq<Value>>, j: nat)
    requires j < |rows| && rows[0] != []
  {
    && e.CurveWritten? && e.frame == f && e.channel == j && |e.values| == |rows[j]|
    && (forall k :: 0 <= k < |rows[j]| ==> ArrivesAs(rows[j][k], e.values[k]))
    && var x := rows[0][|rows[0]| - 1];
    && (!indexed ==> e.index == Number(number))
    && (indexed && IsNumber(x) ==> e.index == FirstValue(x))
    && (indexed && !IsNumber(x) ==> e.index == Number(0))
  }

  /** Behind the first channel the index stays. */
  lemma {:induction false} LaterCurves(c: Config, f: nat, i: nat, index: Index, rows: seq<seq<Value>>)
    requires i > 0
    ensures var es := RowEvents(c, f, i, index, rows);
            forall j :: 0 <= j < |rows| ==> es[j] == CurveWritten(f, i + j, index, rows[j])
    decreases |rows|
  {
    if rows != [] {
      LaterCurves(c, f, i + 1, index, rows[1..]);
    }
  }

  /** What the index is when the first channel has been read. */
  lemma FirstIndex(c: Config, f: nat, number: nat, vs: seq<Value>)
    requires f < |c.frames| && vs != []
    ensures var x, index := vs[|vs| - 1], NewIndex(c, f, 0, Number(number), Arrived(vs));
            && (!c.frames[f].indexType ==> index == Number(number))
            && (c.frames[f].indexType && IsNumber(x) ==> index == FirstValue(x))
            && (c.frames[f].indexType && (x.Text? || x.Name? || x.Reference? || x.Time?) ==> index == Number(0))
  {
    hide CStr, KindLeft;
  }

  lemma RowCurves(c: Config, f: nat, number: nat, rows: seq<seq<Value>>)
    requires f < |c.frames| && RowFits(c.frames[f].channels, 0, rows) && rows != []
    ensures rows[0] != []
    ensures var es := RowEvents(c, f, 0, Number(number), RowArrived(rows));
            forall j :: 0 <= j < |rows| ==> CurveOf(es[j], f, number, c.frames[f].indexType, rows, j)
  {
    hide ArrivesAs, NewIndex, Deliver, Packed;
    assert ValuesFit(c.frames[f].channels[0 + 0], rows[0]);
    var arrived := RowArrived(rows);
    var index := NewIndex(c, f, 0, Number(number), arrived[0]);
    FirstIndex(c, f, number, rows[0]);
    assert Writable(c.frames[f].channels[0].repcode, rows[0][|rows[0]| - 1]);
    LaterCurves(c, f, 1, index, arrived[1..]);
    var es := RowEvents(c, f, 0, Number(number), arrived);
    forall j | 0 <= j < |rows| ensures CurveOf(es[j], f, number, c.frames[f].indexType, rows, j) {
      assert es[j] == CurveWritten(f, j, index, Arrived(rows[j])) by {
        if j > 0 { assert arrived[1..][j - 1] == arrived[j]; }
      }
      forall k | 0 <= k < |rows[j]| ensures ArrivesAs(rows[j][k], Arrived(rows[j])[k]) {
        ArrivesIs(rows[j][k]);
      }
    }
  }

  /** The row of a record comes out channel by channel. */
  lemma WrittenRow(c: Config, name: Obname, number: nat, rows: seq<seq<Value>>)
    requires ObnameFits(name) && number < 0x4000_0000
    requires var f := FindFrame(c, name, 0);
             && f >= 0 && c.frames[f].channels != [] && RowFits(c.frames[f].channels, 0, rows)
             && AllReadable(c.frames[f].channels)
    ensures var f := FindFrame(c, name, 0);
            var r := RecordEvents(c, EncodeObname(name) + EncodeUvari(number) +
                                     EncodeRow(c.frames[f].channels, 0, rows));
            && r.Some? && |r.value| == 1 + |rows| && r.value[0] == HeaderRead(f, number)
            && var curves := r.value[1..];
               forall j :: 0 <= j < |rows| ==>
                 rows[0] != [] && CurveOf(curves[j], f, number, c.frames[f].indexType, rows, j)
  {
    hide RecordEvents, EncodeRow, FindFrame, RowFits, RowEvents, RowArrived, CurveOf;
    var f := FindFrame(c, name, 0);
    RecordDecodes(c, name, number, rows);
    RowWidth(c.frames[f].channels, rows);
    RowCurves(c, f, number, rows);
  }

  lemma RowWidth(channels: seq<Channel>, rows: seq<seq<Value>>)
    requires RowFits(channels, 0, rows)
    ensures |rows| == |channels| && |RowArrived(rows)| == |rows|
  {
  }

  ghost predicate RowComesThrough(channels: seq<Channel>, rows: seq<seq<Value>>)
    requires |rows| == |channels|
  {
    forall j, k :: 0 <= j < |rows| && 0 <= k < |rows[j]| ==> ComesThrough(channels[j].repcode, rows[j][k])
  }

  /** It means exactly the values that were encoded if and only if every one of them comes through. */
  lemma RecordComesThrough(c: Config, name: Obname, number: nat, rows: seq<seq<Value>>)
    requires ObnameFits(name) && number < 0x4000_0000
    requires var f := FindFrame(c, name, 0);
             f >= 0 && c.frames[f].channels != [] && RowFits(c.frames[f].channels, 0, rows)
    ensures var f := FindFrame(c, name, 0);
            RecordEvents(c, EncodeObname(name) + EncodeUvari(number) + EncodeRow(c.frames[f].channels, 0, rows))
            == Some([HeaderRead(f, number)] + RowEvents(c, f, 0, Number(number), rows))
            <==> RowComesThrough(c.frames[f].channels, rows)
  {
    hide RecordEvents, EncodeRow, RowFits, FindFrame, RowComesThrough, Readable;
    var f := FindFrame(c, name, 0);
    var channels := c.frames[f].channels;
    RecordDecodes(c, name, number, rows);
    RowArrivesWhole(channels, rows);
    if AllReadable(channels) {
      var es, fs := RowEvents(c, f, 0, Number(number), RowArrived(rows)), RowEvents(c, f, 0, Number(number), rows);
      assert ([HeaderRead(f, number)] + es)[1..] == es && ([HeaderRead(f, number)] + fs)[1..] == fs;
      if es == fs {
        RowEventsDiffer(c, f, 0, Number(number), Number(number), RowArrived(rows), rows);
      }
    }
  }

  lemma RowArrivesWhole(channels: seq<Channel>, rows: seq<seq<Value>>)
    requires RowFits(channels, 0, rows)
    ensures (AllReadable(channels) && RowArrived(rows) == rows) <==> RowComesThrough(channels, rows)
  {
    hide Deliver, Packed, ComesThrough, Writable, Readable;
    forall j, k | 0 <= j < |rows| && 0 <= k < |rows[j]|
      ensures (Readable(channels[j].repcode) && Deliver(Packed(rows[j][k])) == rows[j][k])
              <==> ComesThrough(channels[j].repcode, rows[j][k])
    {
      assert ValuesFit(channels[0 + j], rows[j]);
      ComesThroughIs(channels[j].repcode, rows[j][k]);
    }
    if RowComesThrough(channels, rows) {
      forall j | 0 <= j < |rows| ensures RowArrived(rows)[j] == rows[j] && Readable(channels[j].repcode) {
        assert ValuesFit(channels[0 + j], rows[j]);
        assert ComesThrough(channels[j].repcode, rows[j][0]);
        forall k | 0 <= k < |rows[j]| ensures Arrived(rows[j])[k] == rows[j][k] {
          assert ComesThrough(channels[j].repcode, rows[j][k]);
        }
      }
    } else if AllReadable(channels) {
      var j: nat, k: nat :| j < |rows| && k < |rows[j]| && !ComesThrough(channels[j].repcode, rows[j][k]);
      assert RowArrived(rows)[j][k] != rows[j][k];
    }
  }
}
