/** What one turn of the loop of parse() in node-addon/src/dlis.cc does to a parser that has read its
    frames and now reads frame data: a function on states, which the class in DlisReader.dfy refines.

    The C code keeps byte_idx, lrs_byte_cnt and vr_byte_cnt; only the window of unread bytes and the
    two differences lrs_len - lrs_byte_cnt and vr_len - vr_byte_cnt decide what it does, so a state
    holds those.  Stopped is where the program exits, reads outside its data, or leaves this model. */
module DlisMachine {
  import opened Bytes
  import opened Rp66Delivery
  import opened Rp66Values

  datatype Channel = Channel(repcode: int, dimension: int)

  /** A name as frame_t holds it: a C string in an array of 100 bytes. */
  type FrameName = n: Obname | |n.name| < 100 && 0 !in n.name witness Obname(0, 0, [])

  datatype Frame = Frame(seqNum: nat, name: FrameName, indexType: bool, channels: seq<Channel>)

  /** The frames of the file and the number of the logical file being read. */
  datatype Config = Config(frames: seq<Frame>, seqNum: nat)

  datatype Code = ExpectingVr | ExpectingLrs | ExpectingIflrHeader | ExpectingIflrData | ExpectingTrailing | Stopped

  /** parsing_frame_index: the number in the record, or the value of the frame's first channel. */
  datatype Index = Number(n: nat) | FirstValue(v: Value)

  /** What the callbacks on_iflr_header and on_iflr_data are given: the values are those of the list that
      serialize_list_add has filled. */
  datatype Event =
    | HeaderRead(frame: nat, number: nat)
    | CurveWritten(frame: nat, channel: nat, index: Index, values: seq<Value>)

  /** The data being decoded: the current frame and channel, and the values of that channel so far. */
  datatype Decoding = Decoding(
    frame: int,           // current_frame, -1 for none
    chan: nat,            // the position of its current_channel
    repcode: int,         // parsing_repcode
    dim: int,             // parsing_dimension
    cnt: int,             // parsing_value_cnt
    values: seq<Value>,   // parsing_iflr_values, as delivered
    index: Index)         // parsing_frame_index

  datatype State = State(
    code: Code,
    win: bytes,           // the unread bytes of the buffer in use
    vrRem: int,           // vr_len - vr_byte_cnt
    lrsRem: int,          // lrs_len - lrs_byte_cnt
    trail: int,           // lrs_trail_len, negative while unknown
    attr: byte,           // lrs_attr
    stash: bytes,         // unparsed_buff
    dec: Decoding,
    out: seq<Event>)

  /** Go: the loop turns again.  Wait: it ends until more bytes come. */
  datatype Turn = Go(s: State) | Wait(s: State)

  const EOD: int := 127

  // ----- Segment attributes -----

  predicate IsEflr(attr: byte) { attr >= 0x80 }
  predicate IsFirst(attr: byte) { attr / 0x40 % 2 == 0 }
  predicate IsEncrypted(attr: byte) { attr / 0x10 % 2 == 1 }
  predicate HasChecksum(attr: byte) { attr / 4 % 2 == 1 }
  predicate HasTrailing(attr: byte) { attr / 2 % 2 == 1 }
  predicate HasPadding(attr: byte) { attr % 2 == 1 }

  /** The bytes of a trailer that are not padding. */
  function TrailBase(attr: byte): (n: nat)
  {
    (if HasChecksum(attr) then 2 else 0) + (if HasTrailing(attr) then 2 else 0)
  }

  // ----- The pieces of a turn -----

  function Stop(s: State): Turn { Wait(s.(code := Stopped)) }

  /** trailing_len: known at once without padding, and with padding once the whole segment is in the window. */
  function WithTrail(s: State): State
  {
    var base := TrailBase(s.attr);
    if s.trail >= 0 then s
    else if !HasPadding(s.attr) then s.(trail := base)
    else if |s.win| < s.lrsRem then s.(trail := -1)
    else if s.lrsRem - 1 - base < 0 then s.(code := Stopped)
    else s.(trail := base + s.win[s.lrsRem - 1 - base])
  }

  function Consume(s: State, n: nat): State
    requires n <= |s.win|
  {
    s.(win := s.win[n..], lrsRem := s.lrsRem - n, vrRem := s.vrRem - n)
  }

  /** lrs_skip_unparsed_buff */
  function SkipUnparsed(s: State): State
    requires 0 <= s.lrsRem - s.trail <= |s.win|
  {
    var n := s.lrsRem - s.trail;
    Consume(s, n).(stash := s.win[..n])
  }

  function FindFrame(c: Config, name: Obname, from: nat): (f: int)
    requires from <= |c.frames|
    ensures f == -1 || (from <= f < |c.frames| && c.frames[f].seqNum == c.seqNum && c.frames[f].name == name)
    ensures 0 in name.name || |name.name| >= 100 ==> f == -1
    decreases |c.frames| - from
  {
    if from == |c.frames| then -1
    else if c.frames[from].seqNum == c.seqNum && c.frames[from].name == name then from
    else FindFrame(c, name, from + 1)
  }

  /** The first frame of that name in this logical file, and none only if there is none. */
  lemma {:induction false} FindFrameIs(c: Config, name: Obname, from: nat)
    requires from <= |c.frames|
    ensures var f := FindFrame(c, name, from);
            forall g :: from <= g < (if f == -1 then |c.frames| else f) ==>
              !(c.frames[g].seqNum == c.seqNum && c.frames[g].name == name)
    decreases |c.frames| - from
  {
    if from < |c.frames| && !(c.frames[from].seqNum == c.seqNum && c.frames[from].name == name) {
      FindFrameIs(c, name, from + 1);
    }
  }

  /** The frame whose data is being read and its current channel are there. */
  predicate HasChannel(c: Config, d: Decoding)
  {
    0 <= d.frame < |c.frames| && d.chan < |c.frames[d.frame].channels|
  }

  /** parse_iflr_header: the name of the frame and the number of the row. */
  function DecodeHeader(b: bytes): (d: Decoded<(Obname, nat)>)
    ensures d.Got? ==> 1 <= d.len <= |b|
  {
    match DecodeObname(b)
    case Fail => Fail
    case Got(name, k) =>
      match DecodeUvari(b[k..])
      case Fail => Fail
      case Got(number, m) => Got((name, number), k + m)
  }

  function AfterLrs(c: Config, s: State, typ: byte): Code
  {
    if IsEncrypted(s.attr) || IsEflr(s.attr) || typ == EOD then Stopped
    else if !HasChannel(c, s.dec) || IsFirst(s.attr) then ExpectingIflrHeader
    else ExpectingIflrData
  }

  function AfterHeader(s: State): Code
  {
    if s.stash != [] then ExpectingTrailing else ExpectingIflrData
  }

  // ----- The turns -----

  function StepVr(s: State): Turn
  {
    if |s.win| < 4 then Wait(s)
    else if s.win[2] != 0xFF then Wait(s)
    else Go(s.(win := s.win[4..], vrRem := ReadBE16(s.win) - 4, lrsRem := 0, code := ExpectingLrs))
  }

  /** The header of a segment is read; the bytes the last segment left unparsed go in front of its body. */
  function Splice(s: State): State
    requires |s.win| >= 4
  {
    s.(win := s.stash + s.win[4..],
       lrsRem := ReadBE16(s.win) + |s.stash| - 4,
       vrRem := s.vrRem + |s.stash| - 4,
       attr := s.win[2], stash := [], trail := -1)
  }

  function StepLrs(c: Config, s: State): Turn
  {
    if |s.win| < 4 then Wait(s)
    else
      var s1 := WithTrail(Splice(s));
      if s1.code.Stopped? then Wait(s1)
      else
        var code := AfterLrs(c, s1, s.win[3]);
        if code.Stopped? then Stop(s1) else Go(s1.(code := code))
  }

  /** The bytes of the current segment's body that are in the window. */
  function BodyInWindow(s: State): (b: bytes)
    ensures b <= s.win
  {
    s.win[..Max(0, Min(s.lrsRem - s.trail, |s.win|))]
  }

  /** on_iflr_header and what follows it: the row starts with the first channel of its frame. */
  function Opened(d: Decoding, f: nat, number: nat): Decoding
  {
    d.(frame := f, chan := 0, index := Number(number))
  }

  function OpenRow(s: State, k: nat, f: nat, number: nat): State
    requires k <= |s.win|
  {
    Consume(s, k).(code := AfterHeader(s), dec := Opened(s.dec, f, number), out := s.out + [HeaderRead(f, number)])
  }

  /** The header does not end in the window: more bytes are awaited, or the segment ends before it. */
  function CutHeader(s: State): Turn
    requires s.trail >= 0
  {
    var body := s.lrsRem - s.trail;
    if |s.win| <= body then Wait(s)
    else if body < 0 then Stop(s)
    else
      var s1 := SkipUnparsed(s);
      Go(s1.(code := AfterHeader(s1)))
  }

  function StepHeader(c: Config, s: State): Turn
    requires s.trail >= 0
  {
    match DecodeHeader(BodyInWindow(s))
    case Got((name, number), k) =>
      var f := FindFrame(c, name, 0);
      if f < 0 then Stop(s) else Go(OpenRow(s, k, f, number))
    case Fail => CutHeader(s)
  }

  predicate Fresh(d: Decoding) { d.dim <= 0 || d.cnt >= d.dim }

  predicate Decodable(d: Decoding) { 0 <= d.repcode < REPCODE_MAX }

  /** parse_iflr_data turns to the current channel once the values of the last one are complete; there may be none
      left. */
  function LoadChannel(c: Config, d: Decoding): Decoding
  {
    if !Fresh(d) then d
    else if !HasChannel(c, d) then d.(repcode := -1, dim := -1, cnt := -1)
    else
      var ch := c.frames[d.frame].channels[d.chan];
      d.(repcode := ch.repcode, dim := ch.dimension, cnt := 0)
  }

  /** get_scalar_value */
  function ScalarOf(v: Value): Index
  {
    if v.Text? || v.Name? || v.Reference? || v.Time? then Number(0) else FirstValue(v)
  }

  /** The first channel of some frames is the index of the row. */
  function NewIndex(c: Config, f: int, chan: nat, index: Index, vs: seq<Value>): Index
  {
    if 0 <= f < |c.frames| && chan == 0 && c.frames[f].indexType && vs != [] then ScalarOf(vs[|vs| - 1]) else index
  }

  /** The loop of parse_iflr_data, over the bytes it may look at. */
  function ValuesIn(d: Decoding, b: bytes): (r: Run)
    requires d.cnt < d.dim ==> Decodable(d)
    ensures r.len <= |b|
    ensures |r.values| <= r.len
    ensures d.cnt < d.dim ==> d.cnt + |r.values| <= d.dim
  {
    if d.cnt < d.dim then DecodeRun(d.repcode, d.dim - d.cnt, b) else NO_RUN
  }

  function Took(c: Config, d: Decoding, vs: seq<Value>): Decoding
  {
    d.(cnt := d.cnt + |vs|, values := d.values + DeliverAll(vs), index := NewIndex(c, d.frame, d.chan, d.index, vs))
  }

  /** on_iflr_data */
  function Curve(d: Decoding): Event
    requires d.frame >= 0
  {
    CurveWritten(d.frame, d.chan, d.index, d.values)
  }

  function NextChannel(d: Decoding): Decoding
  {
    d.(values := [], chan := d.chan + 1)
  }

  /** The end of next_state for frame data. */
  function AfterData(c: Config, s: State): Turn
  {
    if s.lrsRem <= s.trail then Go(s.(code := ExpectingTrailing))
    else if !HasChannel(c, s.dec) || s.dec.dim <= 0 then
      if s.lrsRem - s.trail > |s.win| then Stop(s)
      else Go(Consume(s, s.lrsRem - s.trail).(code := ExpectingTrailing))
    else Go(s)
  }

  /** What parse does with the values that parse_iflr_data found.  Without a current channel on_iflr_data reads
      through a null pointer. */
  function AfterValues(c: Config, s: State): Turn
    requires s.trail >= 0 && s.dec.frame >= 0
  {
    if s.dec.cnt >= s.dec.dim && !HasChannel(c, s.dec) then Stop(s)
    else if s.dec.cnt >= s.dec.dim then AfterData(c, s.(dec := NextChannel(s.dec), out := s.out + [Curve(s.dec)]))
    else if |s.win| <= s.lrsRem then Wait(s)
    else if s.lrsRem < s.trail then Stop(s)
    else AfterData(c, SkipUnparsed(s))
  }

  /** parse_iflr_data has a frame to look at, and a channel too if it is to go on with its values. */
  predicate MayLoad(c: Config, d: Decoding) { 0 <= d.frame < |c.frames| && (Fresh(d) || HasChannel(c, d)) }

  function StepData(c: Config, s: State): Turn
    requires s.trail >= 0
  {
    var d := LoadChannel(c, s.dec);
    if !MayLoad(c, s.dec) || (d.cnt < d.dim && !Decodable(d)) then Stop(s)
    else
      var r := ValuesIn(d, BodyInWindow(s));
      if d.repcode == ORIGIN && r.values != [] then Stop(s)
      else AfterValues(c, Consume(s, r.len).(dec := Took(c, d, r.values)))
  }

  function StepTrailing(s: State): Turn
  {
    if |s.win| < s.lrsRem || s.lrsRem < 0 then Wait(s)
    else
      var s1 := Consume(s, s.lrsRem);
      Go(s1.(code := if s1.vrRem > 0 then ExpectingLrs else ExpectingVr))
  }

  /** One turn of the loop of parse. */
  function Step(c: Config, s: State): Turn
  {
    if s.code.Stopped? then Wait(s)
    else
      var s1 := WithTrail(s);
      if s1.code.Stopped? || s1.trail < 0 then Wait(s1)
      else
        match s1.code
        case ExpectingVr => StepVr(s1)
        case ExpectingLrs => StepLrs(c, s1)
        case ExpectingIflrHeader => StepHeader(c, s1)
        case ExpectingIflrData => StepData(c, s1)
        case ExpectingTrailing => StepTrailing(s1)
  }

  // ----- The loop -----

  function Rank(code: Code): nat
  {
    match code
    case ExpectingIflrHeader => 3
    case ExpectingIflrData => 2
    case ExpectingTrailing => 1
    case _ => 0
  }

  predicate Shrinks(s: State, t: State)
  {
    || |t.win| + |t.stash| < |s.win| + |s.stash|
    || (|t.win| + |t.stash| <= |s.win| + |s.stash| && Rank(t.code) < Rank(s.code))
  }

  /** The ends of the record and of the segment stay where they are.  The window ends at a fixed place of
      the stream, so what must not change is the distance from there back to those ends. */
  predicate EndsKept(s: State, t: State)
  {
    && |t.win| - t.vrRem == |s.win| - s.vrRem
    && |t.win| - t.lrsRem == |s.win| - s.lrsRem
  }

  lemma HeaderMoves(c: Config, s: State)
    requires s.trail >= 0 && s.code.ExpectingIflrHeader?
    ensures EndsKept(s, StepHeader(c, s).s)
    ensures StepHeader(c, s).Go? ==> Shrinks(s, StepHeader(c, s).s)
  {
    hide DecodeHeader, FindFrame;
  }

  lemma AfterDataMoves(c: Config, s: State)
    requires s.code.ExpectingIflrData?
    ensures EndsKept(s, AfterData(c, s).s)
    ensures AfterData(c, s).Go? ==> Shrinks(s, AfterData(c, s).s) || AfterData(c, s).s == s
    ensures (s.dec.dim <= 0 || s.lrsRem <= s.trail) && AfterData(c, s).Go? ==> AfterData(c, s).s.code.ExpectingTrailing?
  {
  }

  lemma DataMoves(c: Config, s: State)
    requires s.trail >= 0 && s.code.ExpectingIflrData?
    ensures EndsKept(s, StepData(c, s).s)
    ensures StepData(c, s).Go? ==> Shrinks(s, StepData(c, s).s)
  {
    hide DecodeRun, AfterData, NewIndex, Deliver, DeliverAll, BodyInWindow, Decodable, HasChannel, Curve;
    if MayLoad(c, s.dec) {
      var d := LoadChannel(c, s.dec);
      if d.cnt >= d.dim || Decodable(d) {
        var r := ValuesIn(d, BodyInWindow(s));
        var d2 := Took(c, d, r.values);
        var s2 := Consume(s, r.len).(dec := d2);
        AfterDataMoves(c, s2.(dec := NextChannel(d2), out := s2.out + [Curve(d2)]));
        if |s2.win| > s2.lrsRem >= s2.trail {
          AfterDataMoves(c, SkipUnparsed(s2));
        }
      }
    }
  }

  /** The loop ends: every turn uses up bytes, or moves towards the end of a segment. */
  lemma StepProgress(c: Config, s: State)
    requires Step(c, s).Go?
    ensures Shrinks(s, Step(c, s).s)
  {
    hide StepHeader, StepData;
    var s1 := WithTrail(s);
    if s1.code.ExpectingIflrHeader? {
      HeaderMoves(c, s1);
    } else if s1.code.ExpectingIflrData? {
      DataMoves(c, s1);
    }
  }

  /** The loop of parse, until it ends for lack of bytes. */
  function Loop(c: Config, s: State): (t: State)
    decreases |s.win| + |s.stash|, Rank(s.code)
  {
    match Step(c, s)
    case Wait(t) => t
    case Go(t) =>
      StepProgress(c, s);
      Loop(c, t)
  }

  function Append(s: State, b: bytes): State { s.(win := s.win + b) }

  /** parse, as dlis_read calls it with more bytes in the buffer. */
  function Feed(c: Config, s: State, chunk: bytes): State
  {
    if s.code.Stopped? || s.win + chunk == [] then s else Loop(c, Append(s, chunk))
  }

  function FeedAll(c: Config, s: State, chunks: seq<bytes>): State
    decreases |chunks|
  {
    if chunks == [] then s else FeedAll(c, Feed(c, s, chunks[0]), chunks[1..])
  }

  // ----- The byte counters stay in step -----

  /** From one visible record header to the next, no turn moves the end of the record: not the splice that
      moves byte_idx back, nor the skip that moves it forward. */
  lemma StepKeepsRecordEnd(c: Config, s: State)
    requires !s.code.ExpectingVr?
    ensures |Step(c, s).s.win| - Step(c, s).s.vrRem == |s.win| - s.vrRem
  {
    hide StepHeader, StepData;
    var s1 := WithTrail(s);
    if !s1.code.Stopped? && s1.trail >= 0 {
      if s1.code.ExpectingIflrHeader? {
        HeaderMoves(c, s1);
      } else if s1.code.ExpectingIflrData? {
        DataMoves(c, s1);
      }
    }
  }

  /** Nor does a turn inside a segment move the end of that segment. */
  lemma StepKeepsSegmentEnd(c: Config, s: State)
    requires s.code.ExpectingIflrHeader? || s.code.ExpectingIflrData? || s.code.ExpectingTrailing?
    ensures EndsKept(s, Step(c, s).s)
  {
    hide StepHeader, StepData;
    var s1 := WithTrail(s);
    if !s1.code.Stopped? && s1.trail >= 0 {
      if s1.code.ExpectingIflrHeader? {
        HeaderMoves(c, s1);
      } else if s1.code.ExpectingIflrData? {
        DataMoves(c, s1);
      }
    }
  }
}
