/** The metadata of a ZMTP 3.0 handshake (the metadata production of ZeroMQ RFC 23) as mechanism_t of libzmq
    (src/mechanism.cpp) writes and parses it. */
module Metadata {
  import opened Bytes

  // ----- Socket types -----

  const PAIR := 0
  const PUB := 1
  const SUB := 2
  const REQ := 3
  const REP := 4
  const DEALER := 5
  const ROUTER := 6
  const PULL := 7
  const PUSH := 8
  const XPUB := 9
  const XSUB := 10
  const STREAM := 11

  const NAMES: seq<string> :=
    ["PAIR", "PUB", "SUB", "REQ", "REP", "DEALER", "ROUTER", "PULL", "PUSH", "XPUB", "XSUB", "STREAM"]

  function Ascii(s: string): (b: bytes)
    ensures |b| == |s|
    ensures forall i :: 0 <= i < |s| ==> b[i] == s[i] as int % 0x100
  {
    seq(|s|, i requires 0 <= i < |s| => s[i] as int % 0x100)
  }

  type SocketType = t: int | 0 <= t < 12

  function TypeName(t: SocketType): bytes { Ascii(NAMES[t]) }

  /** check_socket_type, for a socket of type t. */
  predicate CheckSocketType(t: SocketType, name: bytes)
  {
    if t == REQ then name == TypeName(REP) || name == TypeName(ROUTER)
    else if t == REP then name == TypeName(REQ) || name == TypeName(DEALER)
    else if t == DEALER then name == TypeName(REP) || name == TypeName(DEALER) || name == TypeName(ROUTER)
    else if t == ROUTER then name == TypeName(REQ) || name == TypeName(DEALER) || name == TypeName(ROUTER)
    else if t == PUSH then name == TypeName(PULL)
    else if t == PULL then name == TypeName(PUSH)
    else if t == PUB then name == TypeName(SUB) || name == TypeName(XSUB)
    else if t == SUB then name == TypeName(PUB) || name == TypeName(XPUB)
    else if t == XPUB then name == TypeName(SUB) || name == TypeName(XSUB)
    else if t == XSUB then name == TypeName(PUB) || name == TypeName(XPUB)
    else if t == PAIR then name == TypeName(PAIR)
    else false
  }

  /** No two types share a name: they differ in length, or in one of the first two letters. */
  lemma NamesDiffer(s: SocketType, t: SocketType)
    requires TypeName(s) == TypeName(t)
    ensures s == t
  {
    assert |NAMES[s]| == |NAMES[t]|;
    assert TypeName(s)[0] == NAMES[s][0] as int % 0x100 == NAMES[t][0] as int % 0x100;
    assert TypeName(s)[1] == NAMES[s][1] as int % 0x100 == NAMES[t][1] as int % 0x100;
    assert TypeName(s)[2] == NAMES[s][2] as int % 0x100 == NAMES[t][2] as int % 0x100;
  }

  /** Which types may talk to each other. */
  predicate Peers(s: SocketType, t: SocketType)
  {
    || (s, t) in {(REQ, REP), (REQ, ROUTER), (REP, DEALER), (DEALER, DEALER), (DEALER, ROUTER), (ROUTER, ROUTER)}
    || (s, t) in {(REP, REQ), (ROUTER, REQ), (DEALER, REP), (ROUTER, DEALER)}
    || (s, t) in {(PUB, SUB), (PUB, XSUB), (XPUB, SUB), (XPUB, XSUB), (PUSH, PULL), (PAIR, PAIR)}
    || (s, t) in {(SUB, PUB), (XSUB, PUB), (SUB, XPUB), (XSUB, XPUB), (PULL, PUSH)}
  }

  lemma CheckIs(s: SocketType, t: SocketType)
    ensures CheckSocketType(s, TypeName(t)) <==> Peers(s, t)
  {
    hide TypeName;
    forall u: SocketType | TypeName(u) == TypeName(t) ensures u == t {
      NamesDiffer(u, t);
    }
  }

  /** The two ends of a connection agree whether they fit. */
  lemma CheckAgrees(s: SocketType, t: SocketType)
    ensures CheckSocketType(s, TypeName(t)) <==> CheckSocketType(t, TypeName(s))
  {
    hide CheckSocketType;
    CheckIs(s, t);
    CheckIs(t, s);
  }

  // ----- Properties -----

  const SOCKET_TYPE: bytes := Ascii("Socket-Type")
  const IDENTITY: bytes := Ascii("Identity")

  datatype Property = Property(name: bytes, value: bytes)

  predicate PropertyOk(p: Property) { |p.name| <= 255 && |p.value| <= 0x7FFF_FFFF }

  predicate PropertiesOk(ps: seq<Property>) { forall i :: 0 <= i < |ps| ==> PropertyOk(ps[i]) }

  function PropertyBytes(p: Property): (b: bytes)
    requires PropertyOk(p)
    ensures |b| == PropertyLen(|p.name|, |p.value|)
  {
    [|p.name|] + p.name + WriteBE32(|p.value|) + p.value
  }

  /** The socket type of a DEALER, as RFC 23 lays it out: "Socket-Type" behind its length in one byte, "DEALER" behind
      its length in four. */
  lemma DealerBytes()
    ensures PropertyOk(Property(SOCKET_TYPE, TypeName(5)))
    ensures PropertyBytes(Property(SOCKET_TYPE, TypeName(5))) ==
            [11] + [83, 111, 99, 107, 101, 116, 45, 84, 121, 112, 101] + [0, 0, 0, 6] + [68, 69, 65, 76, 69, 82]
  {
    SocketTypeBytes();
    assert TypeName(5) == [68, 69, 65, 76, 69, 82];
    assert WriteBE32(6) == [0, 0, 0, 6];
  }

  lemma SocketTypeBytes()
    ensures SOCKET_TYPE == [83, 111, 99, 107, 101, 116, 45, 84, 121, 112, 101]
  {
  }

  function PropertyLen(nameLen: nat, valueLen: nat): nat { 1 + nameLen + 4 + valueLen }

  function PropertiesBytes(ps: seq<Property>): bytes
    requires PropertiesOk(ps)
  {
    if ps == [] then [] else PropertyBytes(ps[0]) + PropertiesBytes(ps[1..])
  }

  lemma PropertiesNone()
    ensures PropertiesOk([]) && PropertiesBytes([]) == []
  {
  }

  lemma PropertiesUnfold(ps: seq<Property>)
    requires ps != []
    ensures PropertiesOk(ps) <==> PropertyOk(ps[0]) && PropertiesOk(ps[1..])
    ensures PropertiesOk(ps) ==> PropertiesBytes(ps) == PropertyBytes(ps[0]) + PropertiesBytes(ps[1..])
  {
    hide PropertyBytes, PropertyOk;
    assert forall i :: 0 < i < |ps| ==> ps[i] == ps[1..][i - 1];
  }

  lemma {:induction false} PropertiesJoin(a: seq<Property>, b: seq<Property>)
    requires PropertiesOk(a) && PropertiesOk(b)
    ensures PropertiesOk(a + b) && PropertiesBytes(a + b) == PropertiesBytes(a) + PropertiesBytes(b)
  {
    hide PropertyBytes, PropertyOk, PropertiesOk, PropertiesBytes;
    if a == [] {
      assert a + b == b;
      PropertiesNone();
    } else {
      assert (a + b)[0] == a[0] && (a + b)[1..] == a[1..] + b;
      PropertiesUnfold(a);
      PropertiesJoin(a[1..], b);
      PropertiesUnfold(a + b);
    }
  }

  lemma PropertiesMore(ps: seq<Property>, p: Property)
    requires PropertiesOk(ps) && PropertyOk(p)
    ensures PropertiesOk(ps + [p]) && PropertiesBytes(ps + [p]) == PropertiesBytes(ps) + PropertyBytes(p)
  {
    PropertiesJoin(ps, [p]);
    assert [p][1..] == [] && PropertiesBytes([p]) == PropertyBytes(p) + [];
  }

  /** The options that matter here; app is app_metadata in the order of its keys. */
  datatype Options = Options(
    socketType: SocketType,
    routingId: bytes,
    recvRoutingId: bool,
    app: seq<Property>)

  /** Keys of app_metadata begin with "X-", are shorter than 256 bytes and, like the values, hold no zero:
      zmq_setsockopt sees to that (src/options.cpp). */
  predicate AppKey(name: bytes) { 2 <= |name| <= 255 && name[0] == 88 && name[1] == 45 && 0 !in name }

  predicate OptionsOk(o: Options)
  {
    && |o.routingId| <= 255
    && (forall i :: 0 <= i < |o.app| ==>
          AppKey(o.app[i].name) && 0 !in o.app[i].value && |o.app[i].value| <= 0x7FFF_FFFF)
    && DistinctNames(o.app)
  }

  predicate DistinctNames(ps: seq<Property>)
  {
    forall i, j :: 0 <= i < j < |ps| ==> ps[i].name != ps[j].name
  }

  predicate HasIdentity(t: SocketType) { t == REQ || t == DEALER || t == ROUTER }

  function AppProperties(app: seq<Property>): (ps: seq<Property>)
    ensures |ps| == |app|
    ensures forall i :: 0 <= i < |app| ==> ps[i] == Property(CStr(app[i].name), CStr(app[i].value))
  {
    seq(|app|, i requires 0 <= i < |app| => Property(CStr(app[i].name), CStr(app[i].value)))
  }

  /** The properties that do not come from app_metadata. */
  function OwnProperties(o: Options): seq<Property>
  {
    [Property(SOCKET_TYPE, TypeName(o.socketType))]
    + (if HasIdentity(o.socketType) then [Property(IDENTITY, o.routingId)] else [])
  }

  function BasicProperties(o: Options): seq<Property>
  {
    OwnProperties(o) + AppProperties(o.app)
  }

  lemma BasicPropertiesOk(o: Options)
    requires OptionsOk(o)
    ensures PropertiesOk(OwnProperties(o)) && PropertiesOk(AppProperties(o.app)) && PropertiesOk(BasicProperties(o))
    ensures PropertiesBytes(BasicProperties(o)) == PropertiesBytes(OwnProperties(o)) +
        PropertiesBytes(AppProperties(o.app))
  {
    assert |TypeName(o.socketType)| == |NAMES[o.socketType]| <= 6;
    PropertiesJoin(OwnProperties(o), AppProperties(o.app));
  }

  /** The first i of the properties of the application, and the next one. */
  lemma AppStep(o: Options, i: nat)
    requires OptionsOk(o) && i < |o.app|
    ensures var p := Property(CStr(o.app[i].name), CStr(o.app[i].value));
            && PropertyOk(p) && PropertiesOk(AppProperties(o.app[..i])) && PropertiesOk(AppProperties(o.app[..i + 1]))
            && PropertiesBytes(AppProperties(o.app[..i + 1])) == PropertiesBytes(AppProperties(o.app[..i])) +
                PropertyBytes(p)
    ensures PropertiesOk(AppProperties(o.app))
    ensures |PropertiesBytes(AppProperties(o.app[..i + 1]))| <= |PropertiesBytes(AppProperties(o.app))|
  {
    hide PropertyBytes;
    var all := AppProperties(o.app);
    assert AppProperties(o.app[..i]) == all[..i] && AppProperties(o.app[..i + 1]) == all[..i + 1];
    assert all[..i + 1] == all[..i] + [all[i]] && all == all[..i + 1] + all[i + 1..];
    PropertiesMore(all[..i], all[i]);
    PropertiesJoin(all[..i + 1], all[i + 1..]);
  }

  // ----- Writing -----

  /** memcpy; what lies from end on is not touched. */
  method Copy(buf: array<byte>, at: nat, b: bytes, ghost end: nat)
    requires at + |b| <= end <= buf.Length
    modifies buf
    ensures buf[..at + |b|] == old(buf[..at]) + b && buf[end..] == old(buf[end..])
  {
    ghost var front := buf[..at];
    var i := 0;
    while i < |b|
      invariant 0 <= i <= |b| && buf[..at + i] == front + b[..i] && buf[end..] == old(buf[end..])
    {
      buf[at + i] := b[i];
      assert buf[..at + i + 1] == buf[..at + i] + [b[i]];
      i := i + 1;
    }
  }

  /** add_property, at a place of the buffer with this capacity behind it. */
  method AddProperty(buf: array<byte>, at: nat, capacity: nat, name: bytes, value: bytes) returns (totalLen: nat)
    requires PropertyOk(Property(name, value))                        // the assertions on the two lengths
    requires PropertyLen(|name|, |value|) <= capacity                 // zmq_assert (total_len <= ptr_capacity)
    requires at + capacity <= buf.Length
    modifies buf
    ensures totalLen == PropertyLen(|name|, |value|)
    ensures buf[..at + totalLen] == old(buf[..at]) + PropertyBytes(Property(name, value))
    ensures buf[at + totalLen..] == old(buf[at + totalLen..])
  {
    hide WriteBE32;
    totalLen := PropertyLen(|name|, |value|);
    ghost var front, end := buf[..at], at + totalLen;
    var n: byte := |name|;
    Copy(buf, at, [n], end);
    Copy(buf, at + 1, name, end);
    Copy(buf, at + 1 + |name|, WriteBE32(|value|), end);
    Copy(buf, at + 5 + |name|, value, end);
    assert front + [n] + name + WriteBE32(|value|) + value == front + ([n] + name + WriteBE32(|value|) + value);
  }

  /** basic_properties_len */
  method BasicPropertiesLen(o: Options) returns (len: nat)
    requires OptionsOk(o)
    ensures PropertiesOk(BasicProperties(o)) && len == |PropertiesBytes(BasicProperties(o))|
  {
    hide PropertyBytes;
    BasicPropertiesOk(o);
    OwnLength(o);
    var metaLen := 0;
    var i := 0;
    while i < |o.app|
      invariant 0 <= i <= |o.app| && PropertiesOk(AppProperties(o.app[..i]))
      invariant metaLen == |PropertiesBytes(AppProperties(o.app[..i]))|
    {
      AppStep(o, i);
      metaLen := metaLen + PropertyLen(|CStr(o.app[i].name)|, |CStr(o.app[i].value)|);
      i := i + 1;
    }
    assert o.app[..i] == o.app;
    len := PropertyLen(|SOCKET_TYPE|, |TypeName(o.socketType)|) + metaLen
           + (if HasIdentity(o.socketType) then PropertyLen(|IDENTITY|, |o.routingId|) else 0);
  }

  lemma OwnLength(o: Options)
    requires OptionsOk(o) && PropertiesOk(OwnProperties(o))
    ensures PropertyOk(Property(SOCKET_TYPE, TypeName(o.socketType))) && PropertyOk(Property(IDENTITY, o.routingId))
    ensures PropertiesBytes(OwnProperties(o)) ==
            PropertyBytes(Property(SOCKET_TYPE, TypeName(o.socketType)))
            + (if HasIdentity(o.socketType) then PropertyBytes(Property(IDENTITY, o.routingId)) else [])
  {
    hide PropertyBytes;
    var p := Property(SOCKET_TYPE, TypeName(o.socketType));
    assert PropertyOk(p) by { assert p == OwnProperties(o)[0]; }
    PropertiesMore([], p);
    assert [] + [p] == [p];
    if HasIdentity(o.socketType) {
      PropertiesMore([p], Property(IDENTITY, o.routingId));
    }
  }

  /** The first part of add_basic_properties. */
  method AddOwnProperties(o: Options, buf: array<byte>, at: nat, capacity: nat) returns (p: nat)
    requires OptionsOk(o) && at + capacity <= buf.Length
    requires PropertiesOk(OwnProperties(o)) && |PropertiesBytes(OwnProperties(o))| <= capacity
    modifies buf
    ensures p == at + |PropertiesBytes(OwnProperties(o))|
    ensures buf[..p] == old(buf[..at]) + PropertiesBytes(OwnProperties(o)) && buf[p..] == old(buf[p..])
  {
    hide PropertyBytes, PropertiesBytes;
    OwnLength(o);
    ghost var end := at + |PropertiesBytes(OwnProperties(o))|;
    ghost var front, back := buf[..at], buf[end..];
    p := at;
    var n := AddProperty(buf, p, capacity, SOCKET_TYPE, TypeName(o.socketType));
    p := p + n;
    assert buf[end..] == back by { assert back == old(buf[at + n..])[end - at - n..]; }
    if HasIdentity(o.socketType) {
      n := AddProperty(buf, p, capacity - (p - at), IDENTITY, o.routingId);
      p := p + n;
    }
  }

  /** The next property of the application, behind those already there. */
  method AddAppProperty(o: Options, i: nat, buf: array<byte>, p: nat, capacity: nat, ghost front: bytes, ghost end: nat)
    returns (p': nat)
    requires OptionsOk(o) && i < |o.app|
    requires PropertiesOk(AppProperties(o.app)) && PropertiesOk(AppProperties(o.app[..i]))
    requires |front| + |PropertiesBytes(AppProperties(o.app))| == end <= buf.Length && end <= p + capacity <= buf.Length
    requires p == |front| + |PropertiesBytes(AppProperties(o.app[..i]))| <= end
    requires buf[..p] == front + PropertiesBytes(AppProperties(o.app[..i]))
    modifies buf
    ensures PropertiesOk(AppProperties(o.app[..i + 1]))
    ensures p' == |front| + |PropertiesBytes(AppProperties(o.app[..i + 1]))| <= end
    ensures buf[..p'] == front + PropertiesBytes(AppProperties(o.app[..i + 1])) && buf[end..] == old(buf[end..])
  {
    hide PropertyBytes, PropertiesBytes, PropertiesOk, AppProperties, OptionsOk, CStr;
    AppStep(o, i);
    ghost var tail := buf[end..];
    var n := AddProperty(buf, p, capacity, CStr(o.app[i].name), CStr(o.app[i].value));
    p' := p + n;
    assert buf[end..] == buf[p'..][end - p'..];
    assert tail == old(buf[p + n..])[end - p'..];
  }

  /** add_basic_properties: exactly basic_properties_len bytes, which hold the basic properties; none of the
      assertions on the way fails if the capacity is at least that. */
  method AddBasicProperties(o: Options, buf: array<byte>, at: nat, capacity: nat) returns (len: nat)
    requires OptionsOk(o) && at + capacity <= buf.Length
    requires PropertiesOk(BasicProperties(o)) && |PropertiesBytes(BasicProperties(o))| <= capacity
    modifies buf
    ensures len == |PropertiesBytes(BasicProperties(o))|
    ensures buf[..at + len] == old(buf[..at]) + PropertiesBytes(BasicProperties(o))
    ensures buf[at + len..] == old(buf[at + len..])
  {
    hide PropertyBytes, PropertiesBytes, PropertiesOk, OwnProperties, AppProperties, BasicProperties, OptionsOk, CStr;
    BasicPropertiesOk(o);
    ghost var own := PropertiesBytes(OwnProperties(o));
    ghost var front, end := buf[..at], at + |PropertiesBytes(BasicProperties(o))|;
    var p := AddOwnProperties(o, buf, at, capacity);
    assert buf[end..] == old(buf[end..]) by { assert old(buf[end..]) == old(buf[at + |own|..])[end - at - |own|..]; }
    var i := 0;
    NoProperties(o.app);
    while i < |o.app|
      invariant 0 <= i <= |o.app| && PropertiesOk(AppProperties(o.app[..i]))
      invariant p == at + |own| + |PropertiesBytes(AppProperties(o.app[..i]))| <= end
      invariant buf[..p] == front + own + PropertiesBytes(AppProperties(o.app[..i]))
      invariant buf[end..] == old(buf[end..])
    {
      p := AddAppProperty(o, i, buf, p, capacity - (p - at), front + own, end);
      i := i + 1;
    }
    assert o.app[..i] == o.app;
    len := p - at;
  }

  lemma NoProperties(app: seq<Property>)
    ensures PropertiesOk(AppProperties(app[..0])) && PropertiesBytes(AppProperties(app[..0])) == []
    ensures PropertiesOk([]) && PropertiesBytes([]) == []
  {
  }

  // ----- Parsing -----

  /** The properties at the front of the data, and what is left of the data when the loop of parse_metadata ends. */
  datatype Reading = Reading(ps: seq<Property>, left: nat)

  /** The properties read, one after the other.  The loop stops where a name, a length or a value is cut off,
      with the bytes left that come after the last field it took. */
  function Read(data: bytes): Reading
  {
    if |data| <= 1 then Reading([], |data|)
    else
      var n := data[0] as int;
      if |data| - 1 < n then Reading([], |data| - 1)
      else if |data| - 1 - n < 4 then Reading([], |data| - 1 - n)
      else
        var v := ReadBE32(data[1 + n..]);
        if |data| - 5 - n < v then Reading([], |data| - 5 - n)
        else
          var rest := Read(data[5 + n + v..]);
          Reading([Property(data[1..1 + n], data[5 + n..5 + n + v])] + rest.ps, rest.left)
  }

  lemma PropertyRead(p: Property, tail: bytes)
    requires PropertyOk(p)
    ensures var data := PropertyBytes(p) + tail;
            var n := |p.name|;
            && |data| == 5 + n + |p.value| + |tail| && data[0] == n && data[1..1 + n] == p.name
            && ReadBE32(data[1 + n..]) == |p.value| && data[5 + n..5 + n + |p.value|] == p.value
            && data[5 + n + |p.value|..] == tail
  {
    hide WriteBE32, ReadBE32;
    var data := PropertyBytes(p) + tail;
    var n := |p.name|;
    assert data[1 + n..] == WriteBE32(|p.value|) + (p.value + tail);
    ReadBE32Local(WriteBE32(|p.value|), p.value + tail);
    assert ReadBE32(WriteBE32(|p.value|)) == |p.value|;
  }

  lemma ReadOne(p: Property, tail: bytes)
    requires PropertyOk(p)
    ensures Read(PropertyBytes(p) + tail) == Reading([p] + Read(tail).ps, Read(tail).left)
  {
    hide ReadBE32, PropertyBytes;
    PropertyRead(p, tail);
  }

  /** Reading inverts writing, and goes on behind it. */
  lemma {:induction false} ReadIs(ps: seq<Property>, tail: bytes)
    requires PropertiesOk(ps)
    ensures Read(PropertiesBytes(ps) + tail) == Reading(ps + Read(tail).ps, Read(tail).left)
    decreases |ps|
  {
    hide Read, PropertyBytes;
    if ps == [] {
      assert [] + tail == tail;
    } else {
      assert PropertiesBytes(ps) + tail == PropertyBytes(ps[0]) + (PropertiesBytes(ps[1..]) + tail);
      ReadOne(ps[0], PropertiesBytes(ps[1..]) + tail);
      ReadIs(ps[1..], tail);
      assert [ps[0]] + (ps[1..] + Read(tail).ps) == ps + Read(tail).ps;
    }
  }

  /** What a connection knows of its peer. */
  datatype Peer = Peer(routingId: bytes, properties: map<bytes, bytes>)

  /** A property is handled; None if it is refused. */
  function Handle(o: Options, p: Property, peer: Peer): Option<Peer>
  {
    if p.name == IDENTITY && o.recvRoutingId then Some(Inserted(peer.(routingId := p.value), p))
    else if p.name == SOCKET_TYPE && !CheckSocketType(o.socketType, p.value) then None
    else Some(Inserted(peer, p))
  }

  /** emplace: a name that is there already keeps its value. */
  function Inserted(peer: Peer, p: Property): Peer
  {
    if p.name in peer.properties then peer else peer.(properties := peer.properties[p.name := p.value])
  }

  datatype Parsed = Accepted(peer: Peer) | Einval(peer: Peer) | Eproto(peer: Peer)

  /** parse_metadata: the properties handled up to the first that is refused; nothing may be left then. */
  function Handled(o: Options, ps: seq<Property>, left: nat, peer: Peer): Parsed
  {
    if ps == [] then if left > 0 then Eproto(peer) else Accepted(peer)
    else
      var next := Handle(o, ps[0], peer);
      if next.None? then Einval(peer) else Handled(o, ps[1..], left, next.value)
  }

  function Parse(o: Options, data: bytes, peer: Peer): Parsed
  {
    Handled(o, Read(data).ps, Read(data).left, peer)
  }

  /** The part of mechanism_t that parses: the maps for ZMTP and ZAP properties. */
  class Mechanism {
    const options: Options
    var routingId: bytes
    var zmtpProperties: map<bytes, bytes>
    var zapProperties: map<bytes, bytes>

    constructor (options: Options)
      ensures this.options == options && routingId == [] && zmtpProperties == map[] && zapProperties == map[]
    {
      this.options := options;
      routingId, zmtpProperties, zapProperties := [], map[], map[];
    }

    function Known(zap: bool): Peer
      reads this
    {
      Peer(routingId, if zap then zapProperties else zmtpProperties)
    }

    /** The part of parse_metadata for one property; false if it is refused. */
    method HandleProperty(name: bytes, value: bytes, zap: bool) returns (ok: bool)
      modifies this
      ensures var next := Handle(options, Property(name, value), old(Known(zap)));
              ok == next.Some? && Known(zap) == if ok then next.value else old(Known(zap))
      ensures Known(!zap).properties == old(Known(!zap).properties)
    {
      if name == IDENTITY && options.recvRoutingId {
        routingId := value;
      } else if name == SOCKET_TYPE {
        if !CheckSocketType(options.socketType, value) {
          return false;
        }
      }
      if zap {
        if name !in zapProperties {
          zapProperties := zapProperties[name := value];
        }
      } else {
        if name !in zmtpProperties {
          zmtpProperties := zmtpProperties[name := value];
        }
      }
      return true;
    }

    /** parse_metadata */
    method ParseMetadata(data: bytes, zap: bool) returns (r: Parsed)
      modifies this
      ensures r == Parse(options, data, old(Known(zap))) && r.peer == Known(zap)
      ensures Known(!zap).properties == old(Known(!zap).properties)
    {
      hide ReadBE32, Handle;
      assert data[0..] == data;
      var ptr: nat := 0;
      var bytesLeft: nat := |data|;
      while bytesLeft > 1
        invariant ptr + bytesLeft == |data|
        invariant Parse(options, data, old(Known(zap))) == Parse(options, data[ptr..], Known(zap))
        invariant Known(!zap).properties == old(Known(!zap).properties)
      {
        ghost var here := data[ptr..];
        var nameLength := data[ptr] as int;
        ptr := ptr + 1;
        bytesLeft := bytesLeft - 1;
        if bytesLeft < nameLength {
          assert Read(here) == Reading([], bytesLeft);
          break;
        }
        var name := data[ptr..ptr + nameLength];
        ptr := ptr + nameLength;
        bytesLeft := bytesLeft - nameLength;
        if bytesLeft < 4 {
          assert Read(here) == Reading([], bytesLeft);
          break;
        }
        var valueLength := ReadBE32(data[ptr..]);
        assert data[ptr..] == here[1 + nameLength..];
        ptr := ptr + 4;
        bytesLeft := bytesLeft - 4;
        if bytesLeft < valueLength {
          assert Read(here) == Reading([], bytesLeft);
          break;
        }
        var value := data[ptr..ptr + valueLength];
        ptr := ptr + valueLength;
        bytesLeft := bytesLeft - valueLength;
        ReadNext(here, name, value, data[ptr..]);
        var ok := HandleProperty(name, value, zap);
        if !ok {
          return Einval(Known(zap));
        }
      }
      assert Parse(options, data, old(Known(zap))) == Handled(options, [], bytesLeft, Known(zap));
      return if bytesLeft > 0 then Eproto(Known(zap)) else Accepted(Known(zap));
    }
  }

  lemma ReadNext(data: bytes, name: bytes, value: bytes, rest: bytes)
    requires |data| > 1 && |name| == data[0] && |data| >= 5 + |name| && data[1..1 + |name|] == name
    requires |value| == ReadBE32(data[1 + |name|..]) && |data| == 5 + |name| + |value| + |rest|
    requires data[5 + |name|..5 + |name| + |value|] == value && data[5 + |name| + |value|..] == rest
    ensures Read(data) == Reading([Property(name, value)] + Read(rest).ps, Read(rest).left)
  {
    hide ReadBE32;
  }

  // ----- The round trip -----

  function MapOf(ps: seq<Property>): map<bytes, bytes>
  {
    if ps == [] then map[] else MapOf(ps[1..])[ps[0].name := ps[0].value]
  }

  lemma {:induction false} MapOfIs(ps: seq<Property>)
    requires DistinctNames(ps)
    ensures forall n :: n in MapOf(ps) <==> exists i :: 0 <= i < |ps| && ps[i].name == n
    ensures forall i :: 0 <= i < |ps| ==> ps[i].name in MapOf(ps) && MapOf(ps)[ps[i].name] == ps[i].value
  {
    if ps != [] {
      MapOfIs(ps[1..]);
      forall n | n in MapOf(ps) ensures exists i :: 0 <= i < |ps| && ps[i].name == n {
        if n == ps[0].name {
        } else {
          var i :| 0 <= i < |ps[1..]| && ps[1..][i].name == n;
          assert ps[i + 1].name == n;
        }
      }
      forall i | 0 <= i < |ps| ensures ps[i].name in MapOf(ps) && MapOf(ps)[ps[i].name] == ps[i].value {
        if i > 0 {
          assert ps[i] == ps[1..][i - 1];
        }
      }
    }
  }

  /** The identity that is taken over. */
  function Routed(o: Options, ps: seq<Property>, routingId: bytes): bytes
  {
    if ps == [] then routingId
    else Routed(o, ps[1..], if ps[0].name == IDENTITY && o.recvRoutingId then ps[0].value else routingId)
  }

  lemma HandleNew(o: Options, p: Property, peer: Peer)
    requires p.name !in peer.properties && (p.name == SOCKET_TYPE ==> CheckSocketType(o.socketType, p.value))
    ensures Handle(o, p, peer) ==
            Some(Peer(if p.name == IDENTITY && o.recvRoutingId then p.value else peer.routingId,
                      peer.properties[p.name := p.value]))
  {
    hide CheckSocketType;
    assert |SOCKET_TYPE| != |IDENTITY|;
  }

  lemma {:induction false} HandledIs(o: Options, ps: seq<Property>, peer: Peer)
    requires DistinctNames(ps) && forall i :: 0 <= i < |ps| ==> ps[i].name !in peer.properties
    requires forall i :: 0 <= i < |ps| && ps[i].name == SOCKET_TYPE ==> CheckSocketType(o.socketType, ps[i].value)
    ensures Handled(o, ps, 0, peer) == Accepted(Peer(Routed(o, ps, peer.routingId), peer.properties + MapOf(ps)))
    decreases |ps|
  {
    hide CheckSocketType, Handle;
    if ps == [] {
      assert peer.properties + map[] == peer.properties;
    } else {
      HandleNew(o, ps[0], peer);
      var next := Handle(o, ps[0], peer).value;
      assert forall i :: 0 <= i < |ps[1..]| ==> ps[1..][i] == ps[i + 1];
      HandledIs(o, ps[1..], next);
      MapOfIs(ps[1..]);
      Added(peer.properties, ps[0], MapOf(ps[1..]));
    }
  }

  lemma Added(m: map<bytes, bytes>, p: Property, rest: map<bytes, bytes>)
    requires p.name !in rest
    ensures m[p.name := p.value] + rest == m + rest[p.name := p.value]
  {
  }

  /** What add_basic_properties writes is accepted by a peer iff its socket type fits, and it then knows exactly
      the properties that were written, and the routing id if it asked for it. */
  lemma RoundTrip(sender: Options, receiver: Options)
    requires OptionsOk(sender)
    ensures PropertiesOk(BasicProperties(sender))
    ensures var ps := BasicProperties(sender);
            var id := if HasIdentity(sender.socketType) && receiver.recvRoutingId then sender.routingId else [];
            Parse(receiver, PropertiesBytes(ps), Peer([], map[])) ==
              if Peers(receiver.socketType, sender.socketType) then Accepted(Peer(id, MapOf(ps)))
              else Einval(Peer([], map[]))
  {
    hide CheckSocketType, Read, PropertyBytes;
    var ps := BasicProperties(sender);
    BasicPropertiesOk(sender);
    BasicNames(sender);
    ReadIs(ps, []);
    assert PropertiesBytes(ps) + [] == PropertiesBytes(ps) && ps + [] == ps;
    ReadNothing();
    CheckIs(receiver.socketType, sender.socketType);
    assert ps[0] == Property(SOCKET_TYPE, TypeName(sender.socketType));
    if Peers(receiver.socketType, sender.socketType) {
      HandledIs(receiver, ps, Peer([], map[]));
      assert map[] + MapOf(ps) == MapOf(ps);
      RoutedIs(receiver, sender);
    } else {
      assert |SOCKET_TYPE| != |IDENTITY|;
    }
  }

  lemma ReadNothing()
    ensures Read([]) == Reading([], 0)
  {
  }

  /** A property of the application keeps its name, which is none of those the library uses. */
  lemma AppName(o: Options, i: nat)
    requires OptionsOk(o) && i < |o.app|
    ensures AppProperties(o.app)[i].name == o.app[i].name && o.app[i].name != IDENTITY && o.app[i].name != SOCKET_TYPE
  {
    assert SOCKET_TYPE[0] == 83 && IDENTITY[0] == 73;
  }

  /** The names that are written differ. */
  lemma BasicNames(o: Options)
    requires OptionsOk(o)
    ensures DistinctNames(BasicProperties(o))
    ensures forall i :: |OwnProperties(o)| <= i < |BasicProperties(o)| ==> BasicProperties(o)[i].name != IDENTITY
    ensures forall i :: 0 < i < |BasicProperties(o)| ==> BasicProperties(o)[i].name != SOCKET_TYPE
  {
    hide AppProperties, CStr, AppKey;
    assert |SOCKET_TYPE| != |IDENTITY|;
    var ps, own := BasicProperties(o), OwnProperties(o);
    forall i | |own| <= i < |ps|
      ensures ps[i].name == o.app[i - |own|].name && ps[i].name != IDENTITY && ps[i].name != SOCKET_TYPE
    {
      AppName(o, i - |own|);
    }
  }

  lemma {:induction false} RoutedNone(o: Options, ps: seq<Property>, id: bytes)
    requires forall i :: 0 <= i < |ps| ==> ps[i].name != IDENTITY
    ensures Routed(o, ps, id) == id
  {
    if ps != [] {
      RoutedNone(o, ps[1..], id);
    }
  }

  lemma RoutedIs(receiver: Options, sender: Options)
    requires OptionsOk(sender)
    ensures Routed(receiver, BasicProperties(sender), []) ==
            if HasIdentity(sender.socketType) && receiver.recvRoutingId then sender.routingId else []
  {
    var ps := BasicProperties(sender);
    BasicNames(sender);
    assert |SOCKET_TYPE| != |IDENTITY|;
    if HasIdentity(sender.socketType) {
      assert ps[1..][0] == Property(IDENTITY, sender.routingId);
      assert ps[1..][1..] == ps[2..];
      RoutedNone(receiver, ps[2..], if receiver.recvRoutingId then sender.routingId else []);
    } else {
      RoutedNone(receiver, ps[1..], []);
    }
  }

  /** So the peer knows the socket type, the routing id if that is one of a REQ, DEALER or ROUTER, each property of the
      application, and nothing else. */
  lemma WrittenIsKnown(sender: Options, receiver: Options)
    requires OptionsOk(sender) && Peers(receiver.socketType, sender.socketType)
    ensures PropertiesOk(BasicProperties(sender))
    ensures var r := Parse(receiver, PropertiesBytes(BasicProperties(sender)), Peer([], map[]));
            var named := sender.socketType == REQ || sender.socketType == DEALER || sender.socketType == ROUTER;
            && r.Accepted?
            && r.peer.routingId == (if named && receiver.recvRoutingId then sender.routingId else [])
            && Knows(r.peer.properties, sender, named)
  {
    hide Parse, Peers, Knows, MapOf, PropertiesBytes;
    RoundTrip(sender, receiver);
    WrittenMap(sender);
  }

  lemma InMap(ps: seq<Property>, i: nat)
    requires DistinctNames(ps) && i < |ps|
    ensures ps[i].name in MapOf(ps) && MapOf(ps)[ps[i].name] == ps[i].value
  {
    MapOfIs(ps);
  }

  lemma FromMap(ps: seq<Property>, n: bytes) returns (i: nat)
    requires DistinctNames(ps) && n in MapOf(ps)
    ensures i < |ps| && ps[i].name == n
  {
    MapOfIs(ps);
    i :| 0 <= i < |ps| && ps[i].name == n;
  }

  lemma WrittenMap(o: Options)
    requires OptionsOk(o)
    ensures Knows(MapOf(BasicProperties(o)), o, o.socketType == REQ || o.socketType == DEALER || o.socketType == ROUTER)
  {
    hide CStr, AppKey, MapOf, DistinctNames, OptionsOk, Ascii, BasicProperties, OwnProperties;
    BasicNames(o);
    var ps, own := BasicProperties(o), OwnProperties(o);
    var m := MapOf(ps);
    OwnWritten(o);
    AppsWritten(o);
    InMap(ps, 0);
    if HasIdentity(o.socketType) {
      InMap(ps, 1);
    }
    forall i | 0 <= i < |o.app| ensures o.app[i].name in m && m[o.app[i].name] == o.app[i].value {
      InMap(ps, |own| + i);
    }
    forall n | n in m
      ensures n == SOCKET_TYPE || n == IDENTITY || exists i :: 0 <= i < |o.app| && o.app[i].name == n
    {
      var j := FromMap(ps, n);
    }
    if IDENTITY in m {
      var j := FromMap(ps, IDENTITY);
      IdentityThere(o);
    }
  }

  lemma OwnWritten(o: Options)
    ensures var ps := BasicProperties(o);
            && |ps| > 0 && ps[0] == Property(SOCKET_TYPE, TypeName(o.socketType))
            && (HasIdentity(o.socketType) ==> |ps| > 1 && ps[1] == Property(IDENTITY, o.routingId))
  {
    hide Ascii;
  }

  /** Behind its own properties, those of the application. */
  lemma AppsWritten(o: Options)
    requires OptionsOk(o)
    ensures var ps, own := BasicProperties(o), OwnProperties(o);
            && |ps| == |own| + |o.app|
            && (forall i :: 0 <= i < |o.app| ==> ps[|own| + i] == o.app[i])
            && (forall j :: 0 <= j < |ps| ==> ps[j].name == SOCKET_TYPE || ps[j].name == IDENTITY
                                              || exists i :: 0 <= i < |o.app| && o.app[i].name == ps[j].name)
  {
    hide AppProperties, Ascii, OptionsOk;
    var ps, own := BasicProperties(o), OwnProperties(o);
    forall i | 0 <= i < |o.app| ensures ps[|own| + i] == o.app[i] {
      AppWhole(o, i);
    }
    forall j | 0 <= j < |ps|
      ensures ps[j].name == SOCKET_TYPE || ps[j].name == IDENTITY
              || exists i :: 0 <= i < |o.app| && o.app[i].name == ps[j].name
    {
      if j >= |own| {
        assert ps[j] == o.app[j - |own|];
      }
    }
  }

  ghost predicate Knows(m: map<bytes, bytes>, o: Options, named: bool)
  {
    && SOCKET_TYPE in m && m[SOCKET_TYPE] == Ascii(NAMES[o.socketType])
    && (IDENTITY in m <==> named) && (named ==> m[IDENTITY] == o.routingId)
    && (forall i :: 0 <= i < |o.app| ==> o.app[i].name in m && m[o.app[i].name] == o.app[i].value)
    && (forall n :: n in m ==>
          n == SOCKET_TYPE || n == IDENTITY || exists i :: 0 <= i < |o.app| && o.app[i].name == n)
  }

  lemma AppWhole(o: Options, i: nat)
    requires OptionsOk(o) && i < |o.app|
    ensures AppProperties(o.app)[i] == o.app[i]
  {
    CStrWhole(o.app[i].name);
    CStrWhole(o.app[i].value);
  }

  lemma IdentityThere(o: Options)
    requires OptionsOk(o)
    ensures (exists i :: 0 <= i < |BasicProperties(o)| && BasicProperties(o)[i].name == IDENTITY) <==>
            o.socketType == REQ || o.socketType == DEALER || o.socketType == ROUTER
  {
    BasicNames(o);
    assert |SOCKET_TYPE| != |IDENTITY|;
    if HasIdentity(o.socketType) {
      assert BasicProperties(o)[1].name == IDENTITY;
    }
  }

  // ----- What any accepted data leaves -----

  /** Nothing of that name comes before or after property i. */
  predicate NoneBefore(ps: seq<Property>, i: nat)
    requires i < |ps|
  {
    forall j :: 0 <= j < i ==> ps[j].name != ps[i].name
  }

  predicate NoneAfter(ps: seq<Property>, i: nat)
    requires i < |ps|
  {
    forall j :: i < j < |ps| ==> ps[j].name != ps[i].name
  }

  /** The first value of a name stays, and what was known before; of the routing ids the last is taken over. */
  ghost predicate Leaves(o: Options, ps: seq<Property>, peer: Peer, after: Peer)
  {
    && (forall n :: n in peer.properties ==> n in after.properties && after.properties[n] == peer.properties[n])
    && (forall i :: 0 <= i < |ps| ==> ps[i].name in after.properties)
    && (forall i :: 0 <= i < |ps| && NoneBefore(ps, i) && ps[i].name !in peer.properties ==>
          after.properties[ps[i].name] == ps[i].value)
    && (forall n :: n in after.properties && n !in peer.properties ==> exists i :: 0 <= i < |ps| && ps[i].name == n)
    && RoutingLeft(o, ps, peer.routingId, after.routingId)
  }

  ghost predicate RoutingLeft(o: Options, ps: seq<Property>, before: bytes, after: bytes)
  {
    && (forall i :: 0 <= i < |ps| && o.recvRoutingId && ps[i].name == IDENTITY && NoneAfter(ps, i) ==>
          after == ps[i].value)
    && ((!o.recvRoutingId || forall i :: 0 <= i < |ps| ==> ps[i].name != IDENTITY) ==> after == before)
  }

  /** The properties that come before the first socket type that does not fit. */
  ghost predicate UpToRefused(o: Options, ps: seq<Property>, k: nat)
  {
    && k <= |ps| && NoneRefused(o, ps[..k])
    && (k < |ps| ==> ps[k].name == SOCKET_TYPE && !CheckSocketType(o.socketType, ps[k].value))
  }

  /** Accepted or not, that is what the properties up to the first that is refused leave. */
  lemma {:induction false} HandledLeaves(o: Options, ps: seq<Property>, left: nat, peer: Peer, k: nat)
    requires UpToRefused(o, ps, k)
    ensures Leaves(o, ps[..k], peer, Handled(o, ps, left, peer).peer)
    ensures Handled(o, ps, left, peer) == if k < |ps| then Einval(Handled(o, ps, left, peer).peer)
                                          else if left > 0 then Eproto(Handled(o, ps, left, peer).peer)
                                          else Accepted(Handled(o, ps, left, peer).peer)
    decreases |ps|
  {
    hide CheckSocketType, Leaves;
    assert |SOCKET_TYPE| != |IDENTITY|;
    if k > 0 {
      assert ps[..k][0] == ps[0];
      assert ps[..k][1..] == ps[1..][..k - 1];
      var rest := ps[1..][..k - 1];
      assert forall i :: 0 <= i < |rest| ==> rest[i] == ps[..k][i + 1];
      var next := Handle(o, ps[0], peer).value;
      HandledLeaves(o, ps[1..], left, next, k - 1);
      LeavesOne(o, ps[..k], peer, next, Handled(o, ps, left, peer).peer);
    } else {
      LeavesNothing(o, peer);
    }
  }

  lemma LeavesNothing(o: Options, peer: Peer)
    ensures Leaves(o, [], peer, peer)
  {
  }

  lemma LaterOnes(ps: seq<Property>, i: nat)
    requires 0 < i < |ps|
    ensures ps[1..][i - 1] == ps[i]
    ensures NoneBefore(ps, i) ==> NoneBefore(ps[1..], i - 1) && ps[0].name != ps[i].name
    ensures NoneAfter(ps, i) ==> NoneAfter(ps[1..], i - 1)
  {
    var rest := ps[1..];
    assert forall j :: 0 < j < |ps| ==> ps[j] == rest[j - 1];
    if NoneAfter(ps, i) {
      forall j | i - 1 < j < |rest| ensures rest[j].name != ps[i].name {
        assert rest[j] == ps[j + 1];
      }
    }
  }

  lemma RoutingOne(o: Options, ps: seq<Property>, before: bytes, next: bytes, after: bytes)
    requires ps != [] && RoutingLeft(o, ps[1..], next, after)
    requires next == if ps[0].name == IDENTITY && o.recvRoutingId then ps[0].value else before
    ensures RoutingLeft(o, ps, before, after)
  {
    hide NoneBefore;
    var rest := ps[1..];
    forall i | 0 <= i < |ps| && o.recvRoutingId && ps[i].name == IDENTITY && NoneAfter(ps, i)
      ensures after == ps[i].value
    {
      if i > 0 {
        LaterOnes(ps, i);
      } else {
        assert forall j :: 0 <= j < |rest| ==> rest[j] == ps[j + 1];
      }
    }
    if forall i :: 0 <= i < |ps| ==> ps[i].name != IDENTITY {
      assert forall j :: 0 <= j < |rest| ==> rest[j] == ps[j + 1];
    }
  }

  lemma LeavesOne(o: Options, ps: seq<Property>, peer: Peer, next: Peer, after: Peer)
    requires ps != [] && Handle(o, ps[0], peer) == Some(next) && Leaves(o, ps[1..], next, after)
    ensures Leaves(o, ps, peer, after)
  {
    hide CheckSocketType, NoneBefore, NoneAfter, RoutingLeft;
    assert |SOCKET_TYPE| != |IDENTITY|;
    RoutingOne(o, ps, peer.routingId, next.routingId, after.routingId);
    var rest := ps[1..];
    forall i | 0 <= i < |ps|
      ensures ps[i].name in after.properties
      ensures NoneBefore(ps, i) && ps[i].name !in peer.properties ==> after.properties[ps[i].name] == ps[i].value
    {
      if i > 0 {
        LaterOnes(ps, i);
      }
    }
    forall n | n in after.properties && n !in peer.properties ensures exists i :: 0 <= i < |ps| && ps[i].name == n {
      if n !in next.properties {
        var j :| 0 <= j < |rest| && rest[j].name == n;
        assert ps[j + 1].name == n;
      } else {
        assert ps[0].name == n;
      }
    }
  }

  // ----- What else is accepted -----

  /** A property cut off right after its name, or after the length of a value that is not empty. */
  predicate Stub(b: bytes)
  {
    b == [] ||
    var n := b[0] as int;
    (n > 0 && |b| == 1 + n) || (|b| == 5 + n && ReadBE32(b[1 + n..]) > 0)
  }

  lemma StubRead(b: bytes)
    requires Stub(b)
    ensures Read(b) == Reading([], 0)
  {
    hide ReadBE32;
  }

  lemma ReadStops(data: bytes)
    ensures Read(data).ps == [] && Read(data).left == 0 ==> Stub(data)
  {
    hide ReadBE32;
  }

  /** The first property that is read, and where it ends. */
  lemma ReadBegins(data: bytes)
    requires Read(data).ps != []
    ensures |data| >= 5
    ensures var n := data[0] as int;
            && |data| >= 5 + n
            && var v := ReadBE32(data[1 + n..]);
               && |data| >= 5 + n + v
               && var rest := Read(data[5 + n + v..]);
                  Read(data) == Reading([Property(data[1..1 + n], data[5 + n..5 + n + v])] + rest.ps, rest.left)
  {
    hide ReadBE32;
  }

  /** The bytes of the properties read, and a rest that is a stub if nothing is left. */
  lemma {:induction false} ReadSplits(data: bytes) returns (stub: bytes)
    requires |data| <= 0x7FFF_FFFF
    ensures PropertiesOk(Read(data).ps) && data == PropertiesBytes(Read(data).ps) + stub
    ensures Read(data).left == 0 ==> Stub(stub)
    decreases |data|
  {
    hide ReadBE32, WriteBE32, PropertyBytes, Read, Stub, PropertiesBytes, PropertiesOk;
    if Read(data).ps == [] {
      stub := data;
      ReadStops(data);
      NoProperties([]);
    } else {
      ReadBegins(data);
      var n := data[0] as int;
      var v := ReadBE32(data[1 + n..]);
      var rest := data[5 + n + v..];
      stub := ReadSplits(rest);
      PropertyWritten(data, n, v);
      PropertiesBefore(Property(data[1..1 + n], data[5 + n..5 + n + v]), Read(rest).ps, stub);
    }
  }

  lemma PropertiesBefore(p: Property, ps: seq<Property>, stub: bytes)
    requires PropertyOk(p) && PropertiesOk(ps)
    ensures PropertiesOk([p] + ps)
    ensures PropertyBytes(p) + (PropertiesBytes(ps) + stub) == PropertiesBytes([p] + ps) + stub
  {
    hide PropertyBytes;
    assert ([p] + ps)[1..] == ps;
  }

  lemma PropertyWritten(data: bytes, n: nat, v: nat)
    requires |data| >= 5 + n + v && n == data[0] && v == ReadBE32(data[1 + n..]) <= 0x7FFF_FFFF
    ensures data == PropertyBytes(Property(data[1..1 + n], data[5 + n..5 + n + v])) + data[5 + n + v..]
  {
    hide ReadBE32, WriteBE32;
    ReadWriteBE32(data[1 + n..]);
    assert data == [data[0]] + data[1..1 + n] + data[1 + n..][..4] + data[5 + n..5 + n + v] + data[5 + n + v..];
  }

  lemma ReadWriteBE32(b: bytes)
    requires |b| >= 4
    ensures WriteBE32(ReadBE32(b)) == b[..4]
  {
    var n := ReadBE32(b);
    var hi, lo := b[0] as int * 0x100 + b[1], b[2] as int * 0x100 + b[3];
    Digits(n, hi, lo);
    Digits8(hi, b[0] as nat, b[1] as nat);
    Digits8(lo, b[2] as nat, b[3] as nat);
  }

  lemma Digits(n: nat, hi: nat, lo: nat)
    requires n == hi * 0x1_0000 + lo && hi < 0x1_0000 && lo < 0x1_0000
    ensures n / 0x100_0000 == hi / 0x100 && n / 0x1_0000 % 0x100 == hi % 0x100
    ensures n / 0x100 % 0x100 == lo / 0x100 && n % 0x100 == lo % 0x100
  {
    assert n / 0x1_0000 == hi;
    var a, b := hi / 0x100, hi % 0x100;
    var c, d := lo / 0x100, lo % 0x100;
    assert n == a * 0x100_0000 + (b * 0x1_0000 + lo);
    assert n == (hi * 0x100 + c) * 0x100 + d;
    assert n / 0x100 == hi * 0x100 + c;
  }

  lemma Digits8(n: nat, a: nat, b: nat)
    requires n == a * 0x100 + b && b < 0x100
    ensures n / 0x100 == a && n % 0x100 == b
  {
  }

  /** Nothing is left, and so EPROTO is not reported, iff the data is a row of properties that may end in a stub:
      more than the grammar allows. */
  lemma LeftIsNone(data: bytes)
    requires |data| <= 0x7FFF_FFFF
    ensures Read(data).left == 0 <==>
            exists ps, stub :: PropertiesOk(ps) && Stub(stub) && data == PropertiesBytes(ps) + stub
  {
    hide ReadBE32, Read;
    var rest := ReadSplits(data);
    if ps, stub :| PropertiesOk(ps) && Stub(stub) && data == PropertiesBytes(ps) + stub {
      ReadIs(ps, stub);
      StubRead(stub);
    }
  }

  /** None of these is a socket type that does not fit. */
  predicate NoneRefused(o: Options, ps: seq<Property>)
  {
    forall i :: 0 <= i < |ps| && ps[i].name == SOCKET_TYPE ==> CheckSocketType(o.socketType, ps[i].value)
  }

  lemma {:induction false} HandledAccepts(o: Options, ps: seq<Property>, left: nat, peer: Peer)
    ensures Handled(o, ps, left, peer).Accepted? <==> left == 0 && NoneRefused(o, ps)
    decreases |ps|
  {
    hide CheckSocketType, Inserted;
    if ps != [] {
      assert |SOCKET_TYPE| != |IDENTITY|;
      var next := Handle(o, ps[0], peer);
      assert forall i :: 0 <= i < |ps[1..]| ==> ps[1..][i] == ps[i + 1];
      if next.Some? {
        HandledAccepts(o, ps[1..], left, next.value);
        forall i | NoneRefused(o, ps[1..]) && 0 <= i < |ps| && ps[i].name == SOCKET_TYPE
          ensures CheckSocketType(o.socketType, ps[i].value)
        {
          if i > 0 {
            assert ps[i] == ps[1..][i - 1];
          }
        }
      }
    }
  }

  /** So data is accepted iff it is such a row, with no socket type in it that does not fit. */
  lemma AcceptedIs(o: Options, data: bytes, peer: Peer)
    requires |data| <= 0x7FFF_FFFF
    ensures Parse(o, data, peer).Accepted? <==>
            exists ps, stub ::
              PropertiesOk(ps) && Stub(stub) && data == PropertiesBytes(ps) + stub && NoneRefused(o, ps)
  {
    hide Read, Stub, PropertiesBytes, NoneRefused, Handled, PropertiesOk;
    HandledAccepts(o, Read(data).ps, Read(data).left, peer);
    if Parse(o, data, peer).Accepted? {
      var stub := ReadSplits(data);
    }
    forall ps, stub | PropertiesOk(ps) && Stub(stub) && data == PropertiesBytes(ps) + stub && NoneRefused(o, ps)
      ensures Parse(o, data, peer).Accepted?
    {
      ReadIs(ps, stub);
      StubRead(stub);
      assert ps + [] == ps;
    }
  }

  /** The name "A", with no length of a value behind it. */
  lemma StubAccepted(o: Options, peer: Peer)
    ensures Parse(o, [1, 65], peer) == Accepted(peer)
  {
    hide Read;
    StubRead([1, 65]);
  }
}
