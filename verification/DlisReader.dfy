/** dlis_t and its parser, over rotating buffers: node-addon/src/dlis.h and dlis.cc.  The methods are those of
    the C code; each is proved against the turn of the machine it carries out, seen through Abs(). */
module DlisReader {
  import opened Bytes
  import opened Rp66Delivery
  import opened Rp66Values
  import opened DlisMachine

  const DLIS_BUFF_SIZE: nat := 0x1_0000   // 64 * 1024
  const DLIS_BUFF_NUM: nat := 4
  const UNPARSED_SIZE: nat := 100000
  const HEADER_LEN: nat := 4

  /** What reading the frames leaves: the last frame is current, and in it its last channel, as the references to
      the channels were read one after the other (on_eflr_component_attrib_value).  No data has been decoded. */
  function FramesRead(c: Config): Decoding
  {
    var f := |c.frames| - 1;
    Decoding(f, if f >= 0 then Max(0, |c.frames[f].channels| - 1) else 0, 0, 0, 0, [], Number(0))
  }

  /** The parser then, with the next visible record ahead. */
  function Begun(c: Config): State
  {
    State(ExpectingVr, [], 0, 0, 0, 0, [], FramesRead(c), [])
  }

  class Dlis {
    const config: Config
    const buffer: array<byte>          // buffer[n][i] is at n * DLIS_BUFF_SIZE + i
    const unparsedBuff: array<byte>

    var bufferIdx: nat
    var byteIdx: nat
    var maxByteIdx: nat

    var code: Code
    var vrLen: int
    var vrByteCnt: int
    var lrsLen: int
    var lrsByteCnt: int
    var lrsAttr: byte
    var lrsType: byte
    var lrsTrailLen: int
    var unparsedBuffLen: nat

    var dec: Decoding
    var out: seq<Event>

    ghost predicate Shape()
      reads this
    {
      && buffer.Length == 0x4_0000 && unparsedBuff.Length == UNPARSED_SIZE
      && buffer != unparsedBuff
      && bufferIdx < DLIS_BUFF_NUM
    }

    /** Where the buffer in use begins. */
    function Base(): nat
      reads this`bufferIdx
    {
      bufferIdx * 0x1_0000
    }

    /** The unread bytes lie in the buffer in use, and there is room in front of them for the stash. */
    ghost predicate Valid()
      reads this
    {
      && Shape()
      && byteIdx <= maxByteIdx <= DLIS_BUFF_SIZE
      && unparsedBuffLen <= byteIdx
    }

    ghost function Window(): bytes
      reads this, buffer
      requires Valid()
    {
      buffer[Base() + byteIdx..Base() + maxByteIdx]
    }

    ghost function Stash(): bytes
      reads this, unparsedBuff
      requires Valid()
    {
      unparsedBuff[..unparsedBuffLen]
    }

    /** The state of the machine that this object is in. */
    ghost function Abs(): State
      reads this, buffer, unparsedBuff
      requires Valid()
    {
      State(code, Window(), vrLen - vrByteCnt, lrsLen - lrsByteCnt, lrsTrailLen, lrsAttr, Stash(), dec, out)
    }

    /** dlis_init on zeroed memory, with the frames already read and the next visible record ahead. */
    constructor (c: Config)
      ensures Valid() && config == c && fresh(buffer) && fresh(unparsedBuff)
      ensures Abs() == Begun(c) && code == ExpectingVr && Window() == [] && out == []
      ensures dec.frame == |c.frames| - 1 && dec.values == [] && Fresh(dec)
      ensures c.frames != [] ==> var n := |c.frames[|c.frames| - 1].channels|; dec.chan == if n == 0 then 0 else n - 1
    {
      config := c;
      buffer := new byte[0x4_0000];
      unparsedBuff := new byte[UNPARSED_SIZE];
      bufferIdx, byteIdx, maxByteIdx := 0, 0, 0;
      code := ExpectingVr;
      vrLen, vrByteCnt, lrsLen, lrsByteCnt := 0, 0, 0, 0;
      lrsAttr, lrsType, lrsTrailLen, unparsedBuffLen := 0, 0, 0, 0;
      dec := FramesRead(c);
      out := [];
      new;
      hide FramesRead;
      assert Window() == [] && Stash() == [];
    }

    /** padding_len: the last byte of the padding, once the whole segment is in the buffer. */
    method PaddingLen() returns (n: int)
      requires Valid()
      ensures var s := Abs();
              var k := s.lrsRem - 1 - TrailBase(s.attr);
              n == if |s.win| < s.lrsRem then -1 else if k < 0 then -2 else s.win[k]
    {
      var available := maxByteIdx - byteIdx;
      var lrsRemain := lrsLen - lrsByteCnt;
      if available < lrsRemain {
        return -1;
      }
      var idx := byteIdx + lrsRemain - 1;
      if HasChecksum(lrsAttr) {
        idx := idx - 2;
      }
      if HasTrailing(lrsAttr) {
        idx := idx - 2;
      }
      if idx < byteIdx {
        return -2;   // before the segment: not a well-formed length
      }
      return buffer[Base() + idx];
    }

    method SetTrail(n: int)
      requires Valid()
      modifies this`lrsTrailLen
      ensures Valid() && Abs() == old(Abs()).(trail := n) && lrsTrailLen == n
    {
      lrsTrailLen := n;
    }

    /** trailing_len */
    method TrailingLen() returns (n: int)
      requires Valid()
      modifies this`lrsTrailLen, this`code
      ensures Valid() && Abs() == WithTrail(old(Abs())) && n == lrsTrailLen
    {
      AbsFields();
      hide Valid, Abs;
      if lrsTrailLen >= 0 {
        return lrsTrailLen;
      }
      n := 0;
      if HasChecksum(lrsAttr) {
        n := n + 2;
      }
      if HasTrailing(lrsAttr) {
        n := n + 2;
      }
      if HasPadding(lrsAttr) {
        var padding := PaddingLen();
        if padding == -2 {
          SetCode(Stopped);
          return lrsTrailLen;
        }
        n := if padding < 0 then -1 else n + padding;
      }
      SetTrail(n);
    }

    /** parse_vr_header: the record's length, or nothing if the header is not there or not one. */
    method ParseVrHeader() returns (len: int, length: nat)
      requires Valid()
      ensures var w := Abs().win;
              if |w| < 4 || w[2] != 0xFF then len == -1 else len == HEADER_LEN && length == ReadBE16(w)
    {
      length := 0;
      if maxByteIdx - byteIdx < HEADER_LEN {
        return -1, 0;
      }
      var at := Base() + byteIdx;
      if buffer[at + 2] != 0xFF {
        return -1, 0;
      }
      length := ReadBE16(buffer[at..at + 2]);
      return HEADER_LEN, length;
    }

    /** memmove of unparsed_buff over the bytes in front of at. */
    method PutStash(at: nat)
      requires Valid() && Base() + byteIdx <= at <= Base() + maxByteIdx && unparsedBuffLen <= at - Base()
      modifies buffer
      ensures buffer[at - unparsedBuffLen..at] == Stash()
      ensures buffer[at..Base() + maxByteIdx] == old(buffer[at..Base() + maxByteIdx])
      ensures Stash() == old(Stash())
    {
      var from := at - unparsedBuffLen;
      forall i | 0 <= i < unparsedBuffLen {
        buffer[from + i] := unparsedBuff[i];
      }
    }

    /** The bytes of the buffer from the stash, once it is put before at, to the end. */
    method SpliceAt(at: nat)
      requires Valid() && at == byteIdx + HEADER_LEN <= maxByteIdx
      modifies buffer
      ensures buffer[Base() + at - unparsedBuffLen..Base() + maxByteIdx] == Stash() + old(Window())[HEADER_LEN..]
      ensures Stash() == old(Stash())
    {
      var from := Base() + at;
      assert old(Window())[HEADER_LEN..] == buffer[from..Base() + maxByteIdx];
      PutStash(from);
      assert buffer[from - unparsedBuffLen..Base() + maxByteIdx] ==
             buffer[from - unparsedBuffLen..from] + buffer[from..Base() + maxByteIdx];
    }

    method SegmentHeader() returns (len: nat, attr: byte, typ: byte)
      requires Valid() && maxByteIdx - byteIdx >= HEADER_LEN
      ensures len == ReadBE16(Window()) && attr == Window()[2] && typ == Window()[3]
    {
      var at := Base() + byteIdx;
      len := ReadBE16(buffer[at..at + 2]);
      attr, typ := buffer[at + 2], buffer[at + 3];
    }

    lemma BaseFits()
      requires Valid()
      ensures Base() + DLIS_BUFF_SIZE <= buffer.Length
    {
    }

    lemma AbsIs()
      requires Valid()
      ensures Shape() && byteIdx <= maxByteIdx <= DLIS_BUFF_SIZE && unparsedBuffLen <= byteIdx
      ensures |Window()| == maxByteIdx - byteIdx && |Stash()| == unparsedBuffLen
      ensures Abs() == State(code, Window(), vrLen - vrByteCnt, lrsLen - lrsByteCnt, lrsTrailLen, lrsAttr, Stash(),
          dec, out)
      ensures Base() + DLIS_BUFF_SIZE <= buffer.Length
    {
    }

    /** byteIdx moves behind the header and back to the stash, which is part of the segment from now on. */
    method EnterSegment(len: nat, attr: byte, typ: byte, ghost spliced: bytes)
      requires Valid() && maxByteIdx - byteIdx >= HEADER_LEN
      requires buffer[Base() + byteIdx + HEADER_LEN - unparsedBuffLen..Base() + maxByteIdx] == spliced
      modifies this
      ensures Valid() && lrsType == typ
      ensures Abs() == State(old(code), spliced, old(vrLen - vrByteCnt + unparsedBuffLen) - HEADER_LEN,
                             len + old(unparsedBuffLen) - HEADER_LEN, -1, attr, [], old(dec), old(out))
    {
      hide Base;
      BaseFits();
      lrsAttr, lrsType := attr, typ;
      lrsLen, lrsByteCnt := len + unparsedBuffLen, HEADER_LEN;
      vrLen, vrByteCnt := vrLen + unparsedBuffLen, vrByteCnt + HEADER_LEN;
      byteIdx := byteIdx + HEADER_LEN - unparsedBuffLen;
      unparsedBuffLen := 0;
      lrsTrailLen := -1;
    }

    /** parse_lrs_header and the counters: the bytes that the last segment left unparsed overwrite the end of
        this header, and byteIdx moves back to them.  Nothing happens while the header is not there. */
    method ParseLrsHeader() returns (there: bool)
      requires Valid()
      modifies this, buffer
      ensures Valid() && there == (old(|Window()|) >= HEADER_LEN)
      ensures there ==> Abs() == Splice(old(Abs())) && lrsType == old(Window()[3])
      ensures !there ==> Abs() == old(Abs())
    {
      hide Valid, Abs, Window, Stash, Base;
      AbsIs();
      if maxByteIdx - byteIdx < HEADER_LEN {
        return false;
      }
      var len, attr, typ := SegmentHeader();
      ghost var spliced := Stash() + Window()[HEADER_LEN..];
      SpliceAt(byteIdx + HEADER_LEN);
      EnterSegment(len, attr, typ, spliced);
      there := true;
    }

    /** The bytes of the segment's body that are in the buffer. */
    method AvailableBody(at: nat, used: nat) returns (avail: nat)
      requires Valid() && byteIdx <= at && at == byteIdx + used && used <= |BodyInWindow(Abs())|
      ensures at + avail <= maxByteIdx
      ensures buffer[Base() + at..Base() + at + avail] == BodyInWindow(Abs())[used..]
    {
      var lrsRemain := lrsLen - lrsByteCnt - lrsTrailLen - used;
      avail := Max(0, Min(lrsRemain, maxByteIdx - at));
      ghost var k := |BodyInWindow(Abs())|;
      assert BodyInWindow(Abs()) == Window()[..k] && at + avail == byteIdx + k;
      assert Window()[..k][used..] == Window()[used..k];
      assert Window()[used..k] == buffer[Base() + byteIdx + used..Base() + byteIdx + k];
    }

    /** The bytes a decoder is given: those of the body behind the ones already used. */
    method BodyFrom(used: nat) returns (b: bytes)
      requires Valid() && used <= |BodyInWindow(Abs())|
      ensures b == BodyInWindow(Abs())[used..]
    {
      var avail := AvailableBody(byteIdx + used, used);
      b := buffer[Base() + byteIdx + used..Base() + byteIdx + used + avail];
    }

    /** parse_iflr_header */
    method ParseIflrHeader() returns (len: int, name: Obname, number: nat)
      requires Valid() && lrsTrailLen >= 0
      ensures match DecodeHeader(BodyInWindow(Abs()))
              case Got(h, k) => len == k && (name, number) == h
              case Fail => len == -1
    {
      hide BodyInWindow, DecodeObname, DecodeUvari, Valid;
      name, number := Obname(0, 0, []), 0;
      var b := BodyFrom(0);
      ghost var body := BodyInWindow(Abs());
      assert body[0..] == body;
      match DecodeObname(b)
      case Fail => return -1, name, number;
      case Got(n, k) =>
        name := n;
        ObnameBounded(b);
        b := BodyFrom(k);
        match DecodeUvari(b)
        case Fail => return -1, name, number;
        case Got(m, l) => return k + l, name, m;
    }

    /** The loop of parse_iflr_data: values of one channel, as long as they decode, each of them delivered by
        serialize_list_add.  The loop ends where that would read an ORIGIN as a text. */
    method ReadValues(d0: Decoding) returns (len: nat, d: Decoding, wild: bool)
      requires Valid() && 0 <= d0.frame < |config.frames| && (d0.cnt < d0.dim ==> Decodable(d0))
      ensures var r := ValuesIn(d0, BodyInWindow(Abs()));
              && wild == (d0.repcode == ORIGIN && r.values != [])
              && (!wild ==> len == r.len && d == Took(config, d0, r.values))
    {
      hide DecodeValue, DecodeRun, ValuesIn, Took, BodyInWindow, NewIndex, RunSoFar, Valid, ScalarOf, Deliver;
      ghost var body := BodyInWindow(Abs());
      ghost var taken := NO_RUN;
      d, len, wild := d0, 0, false;
      StartRun(config, d, body);
      while d.cnt < d.dim
        invariant RunSoFar(config, d0, d, body, taken)
        invariant len == taken.len <= |body| && d.dim == d0.dim && 0 <= d.frame < |config.frames|
        invariant d.repcode == d0.repcode && (d0.repcode == ORIGIN ==> taken.values == [])
        invariant d.cnt < d.dim ==> Decodable(d)
        decreases d.dim - d.cnt
      {
        var b := BodyFrom(len);
        var v := DecodeValue(d.repcode, b);
        if v.Fail? {
          EndRun(config, d0, d, body, taken);
          return;
        }
        NextInRun(config, d0, d, body, taken, v);
        taken := taken.Then(Run([v.value], v.len));
        d := d.(cnt := d.cnt + 1, values := d.values + [Deliver(v.value)],
                index := if d.chan == 0 && config.frames[d.frame].indexType then ScalarOf(v.value) else d.index);
        len := len + v.len;
        if d.repcode == ORIGIN {
          BegunRun(config, d0, d, body, taken);
          wild := true;
          return;
        }
      }
      FullRun(config, d0, d, body, taken);
    }

    /** The first part of parse_iflr_data: the channel whose values are read, or none, noted as -1. */
    method TurnToChannel() returns (ok: bool, d: Decoding)
      ensures ok == (MayLoad(config, dec) && (d.cnt < d.dim ==> Decodable(d)))
      ensures ok ==> 0 <= d.frame < |config.frames|
      ensures d == LoadChannel(config, dec)
    {
      d := dec;
      if d.dim <= 0 || d.cnt >= d.dim {
        if HasChannel(config, d) {
          var ch := config.frames[d.frame].channels[d.chan];
          d := d.(repcode := ch.repcode, dim := ch.dimension, cnt := 0);
        } else {
          d := d.(repcode := -1, dim := -1, cnt := -1);
        }
      }
      ok := 0 <= d.frame < |config.frames|;
      if d.cnt < d.dim && (!HasChannel(config, d) || !(0 <= d.repcode < REPCODE_MAX)) {
        ok := false;
      }
    }

    /** parse_iflr_data: ok is false where the program would read through a null pointer, read an ORIGIN, or exit on
        an unknown code. */
    method ParseIflrData() returns (len: nat, ok: bool)
      requires Valid() && lrsTrailLen >= 0
      modifies this`dec
      ensures Valid()
      ensures ok ==> dec.frame >= 0 && len <= |Abs().win|
      ensures ok ==> StepData(config, old(Abs())) == AfterValues(config, Consume(Abs(), len))
      ensures !ok ==> StepData(config, Abs()) == Stop(Abs()) && Abs() == old(Abs())
    {
      AbsFields();
      DataStep(config, Abs());
      hide *;
      var may, d := TurnToChannel();
      if !may {
        return 0, false;
      }
      var n, d2, wild := ReadValues(d);
      if wild {
        return 0, false;
      }
      SetDecoding(d2);
      len, ok := n, true;
    }

    method SetDecoding(d: Decoding)
      requires Valid()
      modifies this`dec
      ensures Valid() && Abs() == old(Abs()).(dec := d) && dec == d
    {
      dec := d;
    }

    /** The update of the three counters that follows every successful step inside a segment. */
    method Advance(len: nat)
      requires Valid() && len <= |Abs().win|
      modifies this`byteIdx, this`lrsByteCnt, this`vrByteCnt
      ensures Valid() && Abs() == Consume(old(Abs()), len)
    {
      byteIdx := byteIdx + len;
      lrsByteCnt := lrsByteCnt + len;
      vrByteCnt := vrByteCnt + len;
      assert Window() == old(Window())[len..];
    }

    /** memmove from the unread bytes to unparsed_buff. */
    method StashBytes(n: nat)
      requires Valid() && n <= maxByteIdx - byteIdx
      modifies unparsedBuff
      ensures Window() == old(Window()) && unparsedBuff[..n] == Window()[..n]
    {
      var at := Base() + byteIdx;
      forall i | 0 <= i < n {
        unparsedBuff[i] := buffer[at + i];
      }
    }

    /** lrs_skip_unparsed_buff */
    method LrsSkipUnparsedBuff()
      requires Valid() && 0 <= Abs().lrsRem - Abs().trail <= |Abs().win|
      modifies this`byteIdx, this`lrsByteCnt, this`vrByteCnt, this`unparsedBuffLen, unparsedBuff
      ensures Valid() && Abs() == SkipUnparsed(old(Abs()))
    {
      var lrsRemain := lrsLen - lrsByteCnt - lrsTrailLen;
      StashBytes(lrsRemain);
      byteIdx := byteIdx + lrsRemain;
      lrsByteCnt := lrsByteCnt + lrsRemain;
      vrByteCnt := vrByteCnt + lrsRemain;
      unparsedBuffLen := lrsRemain;
      assert Window() == old(Window())[lrsRemain..];
    }

    /** avail_bytes and lrs_remain_bytes */
    method Remaining() returns (avail: nat, lrsRemain: int)
      requires Valid()
      ensures avail == |Abs().win| && lrsRemain == Abs().lrsRem
    {
      return maxByteIdx - byteIdx, lrsLen - lrsByteCnt;
    }

    method SetCode(next: Code)
      requires Valid()
      modifies this`code
      ensures Valid() && Abs() == old(Abs()).(code := next)
    {
      code := next;
    }

    /** on_iflr_data, and the step to the next channel */
    method OnIflrData()
      requires Valid() && HasChannel(config, dec)
      modifies this`dec, this`out
      ensures Valid()
      ensures Abs() == old(Abs()).(dec := NextChannel(old(dec)), out := old(out) + [Curve(old(dec))])
    {
      out := out + [Curve(dec)];
      dec := NextChannel(dec);
    }

    /** next_state after frame data. */
    method NextAfterData() returns (go: bool)
      requires Valid() && code.ExpectingIflrData? && lrsTrailLen >= 0
      modifies this`code, this`byteIdx, this`lrsByteCnt, this`vrByteCnt
      ensures Valid() && Turned(go, Abs()) == AfterData(config, old(Abs()))
    {
      AbsFields();
      hide Valid, Abs;
      var avail, remain := Remaining();
      if remain <= lrsTrailLen || !HasChannel(config, dec) || dec.dim <= 0 {
        if remain > lrsTrailLen {
          if remain - lrsTrailLen > avail {
            SetCode(Stopped);
            return false;
          }
          Advance(remain - lrsTrailLen);
        }
        SetCode(ExpectingTrailing);
      }
      go := true;
    }

    method NextAfterLrs()
      requires Valid()
      modifies this`code
      ensures Valid() && Abs() == old(Abs()).(code := AfterLrs(config, old(Abs()), lrsType))
    {
      AbsFields();
      hide Valid, Abs;
      if IsEncrypted(lrsAttr) || IsEflr(lrsAttr) || lrsType == EOD {
        SetCode(Stopped);   // not part of this model
      } else if !HasChannel(config, dec) || IsFirst(lrsAttr) {
        SetCode(ExpectingIflrHeader);
      } else {
        SetCode(ExpectingIflrData);
      }
    }

    // ----- The cases of parse: each is one turn of the machine, and says whether the loop goes on -----

    method TurnVr() returns (go: bool)
      requires Valid() && code.ExpectingVr?
      modifies this
      ensures Valid() && Turned(go, Abs()) == StepVr(old(Abs()))
    {
      hide Valid, Abs, ReadBE16;
      var len, length := ParseVrHeader();
      if len < 0 {
        return false;
      }
      EnterRecord(length);
      go := true;
    }

    method EnterRecord(length: nat)
      requires Valid() && |Abs().win| >= HEADER_LEN
      modifies this`byteIdx, this`vrLen, this`vrByteCnt, this`lrsLen, this`lrsByteCnt, this`code
      ensures Valid()
      ensures Abs() == old(Abs()).(win := old(Abs()).win[HEADER_LEN..], vrRem := length - 4, lrsRem := 0,
                                   code := ExpectingLrs)
    {
      byteIdx := byteIdx + HEADER_LEN;
      vrLen, vrByteCnt := length, HEADER_LEN;
      lrsLen, lrsByteCnt := 0, 0;
      code := ExpectingLrs;
      assert Window() == old(Window())[HEADER_LEN..];
    }

    method TurnLrs() returns (go: bool)
      requires Valid() && code.ExpectingLrs?
      modifies this, buffer
      ensures Valid() && Turned(go, Abs()) == StepLrs(config, old(Abs()))
    {
      AbsIs();
      hide Valid, Abs, AfterLrs, WithTrail, Splice, Window;
      var there := ParseLrsHeader();
      if !there {
        return false;
      }
      var n := TrailingLen();
      if code.Stopped? {
        return false;
      }
      NextAfterLrs();
      AbsFields();
      go := !code.Stopped?;
    }

    /** on_iflr_header, and the counters. */
    method OnIflrHeader(len: nat, f: nat, number: nat)
      requires Valid() && len <= |Abs().win|
      modifies this
      ensures Valid() && Abs() == OpenRow(old(Abs()), len, f, number)
    {
      AbsFields();
      hide Valid, Abs, Opened;
      SetCode(if unparsedBuffLen > 0 then ExpectingTrailing else ExpectingIflrData);
      SetDecoding(Opened(dec, f, number));
      Report(HeaderRead(f, number));
      Advance(len);
    }

    method Report(e: Event)
      requires Valid()
      modifies this`out
      ensures Valid() && Abs() == old(Abs()).(out := old(out) + [e])
    {
      out := out + [e];
    }

    method HeaderMissing() returns (go: bool)
      requires Valid() && lrsTrailLen >= 0
      modifies this, unparsedBuff
      ensures Valid() && Turned(go, Abs()) == CutHeader(old(Abs()))
    {
      AbsFields();
      hide Valid, Abs;
      var avail, remain := Remaining();
      var lrsRemain := remain - lrsTrailLen;
      if avail <= lrsRemain {
        return false;
      }
      if lrsRemain < 0 {
        SetCode(Stopped);
        return false;
      }
      LrsSkipUnparsedBuff();
      AbsFields();
      SetCode(if unparsedBuffLen > 0 then ExpectingTrailing else ExpectingIflrData);
      go := true;
    }

    method TurnHeader() returns (go: bool)
      requires Valid() && code.ExpectingIflrHeader? && lrsTrailLen >= 0
      modifies this, unparsedBuff
      ensures Valid() && Turned(go, Abs()) == StepHeader(config, old(Abs()))
    {
      AbsFields();
      hide Valid, Abs, DecodeHeader, FindFrame, BodyInWindow, CutHeader, OpenRow;
      var len, name, number := ParseIflrHeader();
      if len < 0 {
        go := HeaderMissing();
      } else {
        var f := FindFrame(config, name, 0);
        if f < 0 {
          SetCode(Stopped);
          go := false;
        } else {
          OnIflrHeader(len, f, number);
          go := true;
        }
      }
    }

    method TurnData() returns (go: bool)
      requires Valid() && code.ExpectingIflrData? && lrsTrailLen >= 0
      modifies this, unparsedBuff
      ensures Valid() && Turned(go, Abs()) == StepData(config, old(Abs()))
    {
      AbsFields();
      hide *;
      ghost var s := Abs();
      var len, ok := ParseIflrData();
      if ok {
        go := TakeData(len);
      } else {
        SetCode(Stopped);
        go := false;
      }
    }

    method TakeData(len: nat) returns (go: bool)
      requires Valid() && code.ExpectingIflrData? && lrsTrailLen >= 0 && dec.frame >= 0 && len <= |Abs().win|
      modifies this, unparsedBuff
      ensures Valid() && Turned(go, Abs()) == AfterValues(config, Consume(old(Abs()), len))
    {
      hide AfterValues;
      Advance(len);
      go := FinishData();
    }

    method FinishData() returns (go: bool)
      requires Valid() && code.ExpectingIflrData? && lrsTrailLen >= 0 && dec.frame >= 0
      modifies this, unparsedBuff
      ensures Valid() && Turned(go, Abs()) == AfterValues(config, old(Abs()))
    {
      AbsFields();
      hide Valid, Abs, AfterData;
      if dec.cnt >= dec.dim {
        if !HasChannel(config, dec) {
          SetCode(Stopped);   // current_channel->fp
          return false;
        }
        OnIflrData();
      } else {
        var avail, lrsRemain := Remaining();
        if avail <= lrsRemain {
          return false;
        }
        if lrsRemain < lrsTrailLen {
          SetCode(Stopped);
          return false;
        }
        LrsSkipUnparsedBuff();
      }
      AbsFields();
      go := NextAfterData();
    }

    /** One turn of the loop of parse. */
    method OneTurn() returns (go: bool)
      requires Valid()
      modifies this, buffer, unparsedBuff
      ensures Valid() && Turned(go, Abs()) == Step(config, old(Abs()))
    {
      AbsFields();
      hide Valid, Abs, StepVr, StepLrs, StepHeader, StepData, StepTrailing, WithTrail;
      if code.Stopped? {
        return false;
      }
      var n := TrailingLen();
      AbsFields();
      if code.Stopped? || n < 0 {
        return false;
      }
      TrailKeepsCode(old(Abs()));
      match code
      case ExpectingVr => go := TurnVr();
      case ExpectingLrs => go := TurnLrs();
      case ExpectingIflrHeader => go := TurnHeader();
      case ExpectingIflrData => go := TurnData();
      case ExpectingTrailing => go := TurnTrailing();
    }

    /** parse */
    method Parse()
      requires Valid()
      modifies this, buffer, unparsedBuff
      ensures Valid()
      ensures Abs() == if old(code.Stopped? || byteIdx == maxByteIdx) then old(Abs()) else Loop(config, old(Abs()))
    {
      if code.Stopped? || byteIdx == maxByteIdx {
        return;
      }
      hide Valid, Abs, Step;
      var go := true;
      ghost var end := Loop(config, Abs());
      while go
        invariant Valid()
        invariant if go then Loop(config, Abs()) == end else Abs() == end
        decreases go, |Abs().win| + |Abs().stash|, Rank(Abs().code)
      {
        ghost var s := Abs();
        go := OneTurn();
        if go {
          StepProgress(config, s);
        }
      }
    }

    method MoveWindow(dest: nat)
      requires Valid() && dest + (maxByteIdx - byteIdx) <= buffer.Length
      modifies buffer
      ensures buffer[dest..dest + (maxByteIdx - byteIdx)] == old(Window())
    {
      var len := maxByteIdx - byteIdx;
      var source := Base() + byteIdx;
      forall i | 0 <= i < len {
        buffer[dest + i] := buffer[source + i];
      }
    }

    /** The switch of dlis_read to the next buffer: what is unread moves to its front, behind room for the stash. */
    method SwitchBuffer()
      requires Valid() && unparsedBuffLen + (maxByteIdx - byteIdx) <= DLIS_BUFF_SIZE
      modifies this`bufferIdx, this`byteIdx, this`maxByteIdx, buffer
      ensures Valid() && Abs() == old(Abs())
      ensures byteIdx == unparsedBuffLen
    {
      var next := if bufferIdx + 1 == DLIS_BUFF_NUM then 0 else bufferIdx + 1;
      var len := maxByteIdx - byteIdx;
      MoveWindow(next * 0x1_0000 + unparsedBuffLen);
      bufferIdx := next;
      byteIdx := unparsedBuffLen;
      maxByteIdx := len + unparsedBuffLen;
      assert Window() == old(Window());
    }

    /** memcpy of the chunk behind the unread bytes. */
    method CopyIn(inBuff: bytes)
      requires Valid() && maxByteIdx + |inBuff| <= DLIS_BUFF_SIZE
      modifies this`maxByteIdx, buffer
      ensures Valid() && Abs() == Append(old(Abs()), inBuff)
    {
      hide Base;
      BaseFits();
      var at := Base() + maxByteIdx;
      ghost var win := Window();
      forall i | 0 <= i < |inBuff| {
        buffer[at + i] := inBuff[i];
      }
      assert buffer[at..at + |inBuff|] == inBuff && buffer[Base() + byteIdx..at] == win;
      maxByteIdx := maxByteIdx + |inBuff|;
      assert Window() == buffer[Base() + byteIdx..at] + buffer[at..at + |inBuff|];
    }

    /** dlis_read.  The program relies on the unread bytes, the stash and the chunk fitting into one buffer. */
    method Read(inBuff: bytes)
      requires Valid()
      requires code.Stopped? || |Window()| + |Stash()| + |inBuff| <= DLIS_BUFF_SIZE
      modifies this, buffer, unparsedBuff
      ensures Valid() && Abs() == Feed(config, old(Abs()), inBuff)
    {
      if code.Stopped? {
        return;
      }
      if maxByteIdx + |inBuff| >= DLIS_BUFF_SIZE {
        SwitchBuffer();
      }
      CopyIn(inBuff);
      hide Loop;
      Parse();
    }

    /** The loop of do_parse over the chunks of a file. */
    method ReadAll(chunks: seq<bytes>)
      requires Valid() && FitsAll(config, Abs(), chunks)
      modifies this, buffer, unparsedBuff
      ensures Valid() && Abs() == FeedAll(config, old(Abs()), chunks)
    {
      hide Feed;
      var i := 0;
      assert chunks[0..] == chunks;
      while i < |chunks|
        invariant Valid() && i <= |chunks|
        invariant FitsAll(config, Abs(), chunks[i..])
        invariant FeedAll(config, Abs(), chunks[i..]) == FeedAll(config, old(Abs()), chunks)
      {
        assert chunks[i..][0] == chunks[i] && chunks[i..][1..] == chunks[i + 1..];
        Read(chunks[i]);
        i := i + 1;
      }
    }

    lemma TrailKeepsCode(s: State)
      ensures WithTrail(s).code == s.code || WithTrail(s).code.Stopped?
    {
    }

    /** What Abs says about the fields. */
    lemma AbsFields()
      requires Valid()
      ensures Abs().code == code && Abs().trail == lrsTrailLen && Abs().attr == lrsAttr
      ensures Abs().dec == dec && Abs().out == out && |Abs().stash| == unparsedBuffLen
    {
    }

    method TurnTrailing() returns (go: bool)
      requires Valid() && code.ExpectingTrailing?
      modifies this
      ensures Valid() && Turned(go, Abs()) == StepTrailing(old(Abs()))
    {
      var lrsRemain := lrsLen - lrsByteCnt;
      if maxByteIdx - byteIdx < lrsRemain || lrsRemain < 0 {
        return false;
      }
      Advance(lrsRemain);
      if vrLen > vrByteCnt {
        code := ExpectingLrs;
      } else {
        code := ExpectingVr;
      }
      go := true;
    }
  }

  /** Every chunk finds room for the unread bytes, the stash and itself. */
  ghost predicate FitsAll(c: Config, s: State, chunks: seq<bytes>)
    decreases |chunks|
  {
    chunks == [] ||
    (&& (s.code.Stopped? || |s.win| + |s.stash| + |chunks[0]| <= DLIS_BUFF_SIZE)
     && FitsAll(c, Feed(c, s, chunks[0]), chunks[1..]))
  }

  function Turned(go: bool, s: State): Turn { if go then Go(s) else Wait(s) }

  lemma ObnameBounded(b: bytes)
    ensures DecodeObname(b).Got? ==> DecodeObname(b).len <= |b|
  {
  }

  // ----- The loop of parse_iflr_data -----

  /** taken is what the loop has found of d0's values, and d where it is. */
  ghost predicate RunSoFar(c: Config, d0: Decoding, d: Decoding, body: bytes, taken: Run)
  {
    && 0 <= d0.frame < |c.frames| && (d0.cnt < d0.dim ==> Decodable(d0))
    && d == Took(c, d0, taken.values) && taken.len <= |body|
    && (d0.cnt < d0.dim ==>
          d.cnt <= d.dim && ValuesIn(d0, body) == taken.Then(DecodeRun(d0.repcode, d.dim - d.cnt, body[taken.len..])))
    && (d0.cnt >= d0.dim ==> taken == NO_RUN)
  }

  lemma NothingTaken(c: Config, d: Decoding)
    ensures Took(c, d, []) == d
  {
    assert d.values + [] == d.values && DeliverAll([]) == [];
  }

  /** StepData, before and after the values are read. */
  lemma DataStep(c: Config, s: State)
    requires s.trail >= 0
    ensures var d := LoadChannel(c, s.dec);
            if !MayLoad(c, s.dec) || (d.cnt < d.dim && !Decodable(d)) then StepData(c, s) == Stop(s)
            else
              var r := ValuesIn(d, BodyInWindow(s));
              var t := s.(dec := Took(c, d, r.values));
              && r.len <= |s.win| && t.dec.frame >= 0
              && StepData(c, s) == if d.repcode == ORIGIN && r.values != [] then Stop(s)
                                   else AfterValues(c, Consume(t, r.len))
  {
    hide ValuesIn, AfterValues, HasChannel, Fresh, NewIndex, DeliverAll;
  }

  /** Once a value was found, the run has one. */
  lemma BegunRun(c: Config, d0: Decoding, d: Decoding, body: bytes, taken: Run)
    requires RunSoFar(c, d0, d, body, taken) && taken.values != []
    ensures ValuesIn(d0, body).values != []
  {
    hide DecodeRun, Took;
  }

  lemma StartRun(c: Config, d: Decoding, body: bytes)
    requires 0 <= d.frame < |c.frames| && (d.cnt < d.dim ==> Decodable(d))
    ensures RunSoFar(c, d, d, body, NO_RUN)
  {
    hide DecodeRun, Took;
    NothingTaken(c, d);
    assert body[NO_RUN.len..] == body;
    if d.cnt < d.dim {
      var r := DecodeRun(d.repcode, d.dim - d.cnt, body);
      ThenAssociates(r, NO_RUN, NO_RUN);
      assert ValuesIn(d, body) == r;
      assert ValuesIn(d, body) == NO_RUN.Then(DecodeRun(d.repcode, d.dim - d.cnt, body[NO_RUN.len..]));
    }
    assert NO_RUN.len <= |body|;
    assert d == Took(c, d, NO_RUN.values);
  }

  lemma EndRun(c: Config, d0: Decoding, d: Decoding, body: bytes, taken: Run)
    requires RunSoFar(c, d0, d, body, taken) && d.cnt < d.dim && Decodable(d)
    requires DecodeValue(d.repcode, body[taken.len..]).Fail?
    ensures ValuesIn(d0, body) == taken && d == Took(c, d0, taken.values)
  {
    hide DecodeRun, DecodeValue;
    RunUnfolds(d.repcode, d.dim - d.cnt, body[taken.len..]);
    assert taken.values + [] == taken.values;
  }

  lemma FullRun(c: Config, d0: Decoding, d: Decoding, body: bytes, taken: Run)
    requires RunSoFar(c, d0, d, body, taken) && d.cnt >= d.dim
    ensures ValuesIn(d0, body) == taken && d == Took(c, d0, taken.values)
  {
    hide DecodeRun;
    if d0.cnt < d0.dim {
      RunUnfolds(d.repcode, 0, body[taken.len..]);
      assert taken.values + [] == taken.values;
    }
  }

  lemma NextInRun(c: Config, d0: Decoding, d: Decoding, body: bytes, taken: Run, v: Decoded<Value>)
    requires RunSoFar(c, d0, d, body, taken) && d.cnt < d.dim && Decodable(d)
    requires v == DecodeValue(d.repcode, body[taken.len..]) && v.Got?
    ensures var d' := d.(cnt := d.cnt + 1, values := d.values + [Deliver(v.value)],
                         index := if d.chan == 0 && c.frames[d.frame].indexType then ScalarOf(v.value) else d.index);
            RunSoFar(c, d0, d', body, taken.Then(Run([v.value], v.len)))
  {
    hide DecodeRun, DecodeValue, Deliver, ScalarOf;
    DeliverAllJoin(taken.values, [v.value]);
    assert DeliverAll([v.value]) == [Deliver(v.value)];
    var one := Run([v.value], v.len);
    var rest := body[taken.len..];
    RunUnfolds(d.repcode, d.dim - d.cnt, rest);
    assert rest[v.len..] == body[taken.len + v.len..];
    ThenAssociates(taken, one, DecodeRun(d.repcode, d.dim - d.cnt - 1, rest[v.len..]));
    assert (d0.values + DeliverAll(taken.values)) + [Deliver(v.value)] ==
           d0.values + (DeliverAll(taken.values) + [Deliver(v.value)]);
  }
}
