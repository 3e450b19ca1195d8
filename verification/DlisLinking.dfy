/** How the parser of DLIS files links channels into frames: on_eflr_component_object and
    on_eflr_component_attrib_value in node-addon/src/dlis.cc.  CHANNEL objects and the references of FRAME
    objects to them may come in any order; channels and frames are two kinds of linked lists that share the
    channels.  Allocated channels are entries of a pool here, and a pointer is a position in it, -1 for NULL. */
module DlisLinking {
  import opened Bytes
  import opened Rp66Values
  import opened DlisLists

  datatype Def = Def(repcode: int, dimension: int)

  /** channel_init */
  const DEFAULT: Def := Def(19, 1)

  // ----- What a file says -----

  datatype Event =
    | FrameObject(name: Obname)
    | RefersTo(channel: Obname)      // a value of the attribute CHANNELS of the current frame
    | ChannelObject(name: Obname)
    | Dimension(n: nat)               // a value of DIMENSION of the current channel
    | RepCode(code: nat)              // the value of REPRESENTATION-CODE

  datatype Refs = Refs(name: Obname, refs: seq<Obname>)

  /** The frames in order with what they refer to, the channels that have come with what is known of them, and
      the last of these. */
  datatype Said = Said(frames: seq<Refs>, defs: map<Obname, Def>, current: Option<Obname>)

  const NOTHING: Said := Said([], map[], None)

  function DefOf(defs: map<Obname, Def>, n: Obname): Def { if n in defs then defs[n] else DEFAULT }

  function Referred(frames: seq<Refs>, c: Obname): seq<Refs>
  {
    if frames == [] then []
    else
      var last := frames[|frames| - 1];
      frames[|frames| - 1 := last.(refs := last.refs + [c])]
  }

  function Define(s: Said, d: Def): Said
  {
    if s.current.Some? then s.(defs := s.defs[s.current.value := d]) else s
  }

  function CurrentDef(s: Said): Def { if s.current.Some? then DefOf(s.defs, s.current.value) else DEFAULT }

  function Say(s: Said, e: Event): Said
  {
    match e
    case FrameObject(n) => s.(frames := s.frames + [Refs(n, [])])
    case RefersTo(c) => s.(frames := Referred(s.frames, c))
    case ChannelObject(n) => s.(defs := s.defs[n := DEFAULT], current := Some(n))
    case Dimension(n) => Define(s, CurrentDef(s).(dimension := CurrentDef(s).dimension * n))
    case RepCode(r) => Define(s, CurrentDef(s).(repcode := r))
  }

  function SayAll(es: seq<Event>): Said
  {
    if es == [] then NOTHING else Say(SayAll(es[..|es| - 1]), es[|es| - 1])
  }

  predicate IsReferred(frames: seq<Refs>, c: Obname)
  {
    exists f :: 0 <= f < |frames| && c in frames[f].refs
  }

  /** Every channel comes once and is referred to at most once; attributes follow an object. */
  predicate Allowed(s: Said, e: Event)
  {
    match e
    case FrameObject(n) => true
    case RefersTo(c) => s.frames != [] && !IsReferred(s.frames, c)
    case ChannelObject(n) => n !in s.defs
    case Dimension(n) => s.current.Some?
    case RepCode(r) => s.current.Some?
  }

  predicate AllAllowed(es: seq<Event>)
  {
    es == [] || (AllAllowed(es[..|es| - 1]) && Allowed(SayAll(es[..|es| - 1]), es[|es| - 1]))
  }

  /** A channel as it ends up in a frame. */
  datatype Link = Link(name: Obname, index: nat, def: Def)

  function LinksOf(refs: seq<Obname>, defs: map<Obname, Def>): (ls: seq<Link>)
    ensures |ls| == |refs|
    ensures forall i :: 0 <= i < |refs| ==> ls[i] == Link(refs[i], i + 1, DefOf(defs, refs[i]))
  {
    seq(|refs|, i requires 0 <= i < |refs| => Link(refs[i], i + 1, DefOf(defs, refs[i])))
  }

  // ----- The order does not matter -----

  predicate OfFrames(e: Event) { e.FrameObject? || e.RefersTo? }

  function FrameEvents(es: seq<Event>): seq<Event>
  {
    if es == [] then []
    else
      var e := es[|es| - 1];
      FrameEvents(es[..|es| - 1]) + (if OfFrames(e) then [e] else [])
  }

  function ChannelEvents(es: seq<Event>): seq<Event>
  {
    if es == [] then []
    else
      var e := es[|es| - 1];
      ChannelEvents(es[..|es| - 1]) + (if OfFrames(e) then [] else [e])
  }

  lemma SayMore(es: seq<Event>, e: Event)
    ensures SayAll(es + [e]) == Say(SayAll(es), e)
  {
    hide Say;
    assert (es + [e])[..|es|] == es;
  }

  lemma SayApart(s: Said, t: Said, e: Event)
    ensures OfFrames(e) && s.frames == t.frames ==> Say(s, e).frames == Say(t, e).frames
    ensures OfFrames(e) ==> Say(s, e).defs == s.defs && Say(s, e).current == s.current
    ensures !OfFrames(e) && s.defs == t.defs && s.current == t.current ==>
              Say(s, e).defs == Say(t, e).defs && Say(s, e).current == Say(t, e).current
    ensures !OfFrames(e) ==> Say(s, e).frames == s.frames
  {
  }

  /** Frames and channels do not look at each other. */
  lemma {:induction false} SaidApart(es: seq<Event>)
    ensures SayAll(es).frames == SayAll(FrameEvents(es)).frames
    ensures SayAll(es).defs == SayAll(ChannelEvents(es)).defs && SayAll(es).current == SayAll(ChannelEvents(es)).current
  {
    hide Say, OfFrames;
    if es != [] {
      var n := |es| - 1;
      var fs, cs := FrameEvents(es[..n]), ChannelEvents(es[..n]);
      SaidApart(es[..n]);
      SayApart(SayAll(es[..n]), SayAll(fs), es[n]);
      SayApart(SayAll(es[..n]), SayAll(cs), es[n]);
      SayMore(fs, es[n]);
      SayMore(cs, es[n]);
      assert cs + [] == cs && fs + [] == fs;
    }
  }

  /** A channel object and the attributes behind it. */
  datatype Block = Block(name: Obname, attributes: seq<Event>)

  predicate BlockOk(b: Block)
  {
    forall i :: 0 <= i < |b.attributes| ==> b.attributes[i].Dimension? || b.attributes[i].RepCode?
  }

  function Attributed(d: Def, attributes: seq<Event>): Def
  {
    if attributes == [] then d
    else
      var before := Attributed(d, attributes[..|attributes| - 1]);
      match attributes[|attributes| - 1]
      case Dimension(n) => before.(dimension := before.dimension * n)
      case RepCode(r) => before.(repcode := r)
      case _ => before
  }

  function BlockDef(b: Block): Def { Attributed(DEFAULT, b.attributes) }

  function Blocks(bs: seq<Block>): seq<Event>
  {
    if bs == [] then []
    else
      var b := bs[|bs| - 1];
      Blocks(bs[..|bs| - 1]) + ([ChannelObject(b.name)] + b.attributes)
  }

  lemma AttributeSaid(s: Said, n: Obname, b: Block, k: nat)
    requires BlockOk(b) && k < |b.attributes| && s.current == Some(n)
    requires n in s.defs && s.defs[n] == Attributed(DEFAULT, b.attributes[..k])
    ensures var t := Say(s, b.attributes[k]);
            && b.attributes[..k + 1][..k] == b.attributes[..k]
            && t.current == Some(n) && t.defs == s.defs[n := Attributed(DEFAULT, b.attributes[..k + 1])]
  {
    assert b.attributes[..k + 1][..k] == b.attributes[..k];
  }

  lemma {:induction false} BlockSaid(es: seq<Event>, b: Block, k: nat)
    requires BlockOk(b) && k <= |b.attributes|
    ensures var s := SayAll(es + ([ChannelObject(b.name)] + b.attributes[..k]));
            && s.defs == SayAll(es).defs[b.name := Attributed(DEFAULT, b.attributes[..k])]
            && s.current == Some(b.name)
    decreases k
  {
    hide SayAll, BlockOk, Attributed;
    var start := [ChannelObject(b.name)];
    if k == 0 {
      assert es + (start + b.attributes[..0]) == es + start;
      SayMore(es, start[0]);
      NoAttributes(b);
    } else {
      BlockSaid(es, b, k - 1);
      var before := es + (start + b.attributes[..k - 1]);
      assert es + (start + b.attributes[..k]) == before + [b.attributes[k - 1]];
      SayMore(before, b.attributes[k - 1]);
      AttributeSaid(SayAll(before), b.name, b, k - 1);
    }
  }

  lemma NoAttributes(b: Block)
    ensures Attributed(DEFAULT, b.attributes[..0]) == DEFAULT
  {
  }

  predicate BlocksOk(bs: seq<Block>)
  {
    && (forall i :: 0 <= i < |bs| ==> BlockOk(bs[i]))
    && (forall i, j :: 0 <= i < j < |bs| ==> bs[i].name != bs[j].name)
  }

  /** The channels are known by their blocks, in whatever order these come. */
  lemma {:induction false} BlocksSaid(bs: seq<Block>, n: Obname)
    requires BlocksOk(bs)
    ensures n in SayAll(Blocks(bs)).defs <==> exists i :: 0 <= i < |bs| && bs[i].name == n
    ensures forall i :: 0 <= i < |bs| && bs[i].name == n && n in SayAll(Blocks(bs)).defs ==>
              SayAll(Blocks(bs)).defs[n] == BlockDef(bs[i])
  {
    hide SayAll, BlockDef;
    if bs == [] {
      NothingSaid();
    } else {
      var k := |bs| - 1;
      BlocksSaid(bs[..k], n);
      var attributes := bs[k].attributes;
      BlockSaid(Blocks(bs[..k]), bs[k], |attributes|);
      assert attributes[..|attributes|] == attributes;
      BlockDefIs(bs[k]);
      assert forall i :: 0 <= i < k ==> bs[..k][i] == bs[i];
    }
  }

  lemma BlockDefIs(b: Block)
    ensures BlockDef(b) == Attributed(DEFAULT, b.attributes)
  {
  }

  lemma NothingSaid()
    ensures SayAll([]) == NOTHING
  {
  }

  lemma SameBlocks(bs: seq<Block>, cs: seq<Block>, n: Obname)
    requires BlocksOk(bs) && BlocksOk(cs) && (forall b :: b in bs ==> b in cs) && n in SayAll(Blocks(bs)).defs
    ensures n in SayAll(Blocks(cs)).defs && SayAll(Blocks(cs)).defs[n] == SayAll(Blocks(bs)).defs[n]
  {
    hide SayAll, BlockDef, Blocks, BlocksOk;
    BlocksSaid(bs, n);
    BlocksSaid(cs, n);
    var i :| 0 <= i < |bs| && bs[i].name == n;
    assert bs[i] in cs;
    var j :| 0 <= j < |cs| && cs[j] == bs[i];
  }

  /** Two files with the same frames, and the same channels in any order and at any places between the events of
      the frames, say the same of every frame. */
  lemma OrderDoesNotMatter(es: seq<Event>, fs: seq<Event>, bs: seq<Block>, cs: seq<Block>)
    requires FrameEvents(es) == FrameEvents(fs)
    requires BlocksOk(bs) && BlocksOk(cs) && ChannelEvents(es) == Blocks(bs) && ChannelEvents(fs) == Blocks(cs)
    requires forall b :: b in bs <==> b in cs
    ensures SayAll(es).frames == SayAll(fs).frames && SayAll(es).defs == SayAll(fs).defs
  {
    hide SayAll, Blocks, BlocksOk, FrameEvents, ChannelEvents;
    SaidApart(es);
    SaidApart(fs);
    var d, e := SayAll(Blocks(bs)).defs, SayAll(Blocks(cs)).defs;
    forall n | n in d ensures n in e && e[n] == d[n] {
      SameBlocks(bs, cs, n);
    }
    forall n | n in e ensures n in d {
      SameBlocks(cs, bs, n);
    }
  }

  // ----- What a written file says -----

  /** The frames of a file, each followed by the references it makes. */
  function FrameText(frames: seq<Refs>): seq<Event>
  {
    if frames == [] then []
    else
      var last := frames[|frames| - 1];
      FrameText(frames[..|frames| - 1]) + ([FrameObject(last.name)] + RefText(last.refs))
  }

  function RefText(refs: seq<Obname>): (r: seq<Event>)
    ensures |r| == |refs| && forall i :: 0 <= i < |r| ==> r[i] == RefersTo(refs[i])
  {
    seq(|refs|, i requires 0 <= i < |refs| => RefersTo(refs[i]))
  }

  lemma {:induction false} RefsSaid(es: seq<Event>, frames: seq<Refs>, name: Obname, refs: seq<Obname>)
    requires SayAll(es).frames == frames
    ensures SayAll(es + ([FrameObject(name)] + RefText(refs))).frames == frames + [Refs(name, refs)]
    decreases |refs|
  {
    hide SayAll;
    var start := [FrameObject(name)];
    if refs == [] {
      assert es + (start + RefText(refs)) == es + start;
      SayMore(es, FrameObject(name));
    } else {
      var n := |refs| - 1;
      RefsSaid(es, frames, name, refs[..n]);
      var before := es + (start + RefText(refs[..n]));
      assert es + (start + RefText(refs)) == before + [RefersTo(refs[n])];
      SayMore(before, RefersTo(refs[n]));
      assert refs == refs[..n] + [refs[n]];
      assert (frames + [Refs(name, refs[..n])])[|frames| := Refs(name, refs)] == frames + [Refs(name, refs)];
    }
  }

  lemma {:induction false} FramesSay(frames: seq<Refs>)
    ensures SayAll(FrameText(frames)).frames == frames
  {
    hide SayAll;
    if frames == [] {
      NothingSaid();
    } else {
      var n := |frames| - 1;
      FramesSay(frames[..n]);
      RefsSaid(FrameText(frames[..n]), frames[..n], frames[n].name, frames[n].refs);
      assert frames == frames[..n] + [frames[n]];
      assert Refs(frames[n].name, frames[n].refs) == frames[n];
    }
  }

  /** The product of the dimensions. */
  function Product(attributes: seq<Event>): int
  {
    if attributes == [] then 1
    else (if attributes[0].Dimension? then attributes[0].n else 1) * Product(attributes[1..])
  }

  lemma {:induction false} ProductMore(attributes: seq<Event>, e: Event)
    ensures Product(attributes + [e]) == Product(attributes) * (if e.Dimension? then e.n else 1)
  {
    var k := if e.Dimension? then e.n else 1;
    if attributes == [] {
      assert attributes + [e] == [e] && [e][1..] == [];
    } else {
      ProductMore(attributes[1..], e);
      assert (attributes + [e])[1..] == attributes[1..] + [e];
      Associates(if attributes[0].Dimension? then attributes[0].n else 1, Product(attributes[1..]), k);
    }
  }

  lemma Associates(a: int, b: int, c: int)
    ensures a * (b * c) == (a * b) * c
  {
  }

  /** A channel with these attributes: its size is the product of its dimensions, 1 without any; its code is the last
      that is given, or IDENT, which is 19. */
  ghost predicate Defines(attributes: seq<Event>, d: Def)
  {
    && d.dimension == Product(attributes)
    && ((forall i :: 0 <= i < |attributes| ==> !attributes[i].RepCode?) ==> d.repcode == 19)
    && (forall i :: 0 <= i < |attributes| && attributes[i].RepCode?
                    && (forall j :: i < j < |attributes| ==> !attributes[j].RepCode?) ==>
          d.repcode == attributes[i].code)
  }

  lemma {:induction false} AttributedIs(attributes: seq<Event>)
    requires forall i :: 0 <= i < |attributes| ==> attributes[i].Dimension? || attributes[i].RepCode?
    ensures Defines(attributes, Attributed(DEFAULT, attributes))
  {
    hide Product;
    if attributes == [] {
      NoProduct();
    } else {
      var n := |attributes| - 1;
      var before, e := attributes[..n], attributes[n];
      AttributedIs(before);
      ProductMore(before, e);
      assert attributes == before + [e];
      if e.RepCode? {
        assert Product(before) * 1 == Product(before);
      } else {
        assert forall i :: 0 <= i < n ==> before[i] == attributes[i];
        CodeBefore(before, e, Attributed(DEFAULT, before).repcode);
      }
    }
  }

  lemma NoProduct()
    ensures Product([]) == 1
  {
  }

  /** A dimension leaves the code. */
  lemma CodeBefore(before: seq<Event>, e: Event, code: int)
    requires !e.RepCode? && Defines(before, Def(code, Product(before)))
    ensures Defines(before + [e], Def(code, Product(before + [e])))
  {
    hide Product;
    var t := before + [e];
    assert forall i :: 0 <= i < |before| ==> t[i] == before[i];
  }

  /** A file with these frames and these channels, in any order and at any places: each frame refers to the channels
      that were written for it, in their order and numbered from 1, and each of these is what its attributes say, or
      one IDENT if it never comes. */
  lemma FileSays(es: seq<Event>, frames: seq<Refs>, bs: seq<Block>, f: nat, k: nat)
    requires FrameEvents(es) == FrameText(frames) && ChannelEvents(es) == Blocks(bs) && BlocksOk(bs)
    requires f < |frames| && k < |frames[f].refs|
    ensures SayAll(es).frames == frames
    ensures var link := LinksOf(SayAll(es).frames[f].refs, SayAll(es).defs)[k];
            && link.name == frames[f].refs[k] && link.index == k + 1
            && (forall i :: 0 <= i < |bs| && bs[i].name == link.name ==> Defines(bs[i].attributes, link.def))
            && ((forall i :: 0 <= i < |bs| ==> bs[i].name != link.name) ==> link.def == Def(19, 1))
  {
    hide SayAll, BlockDef, FrameText, Blocks, Defines, Attributed;
    SaidApart(es);
    FramesSay(frames);
    var n := frames[f].refs[k];
    BlocksSaid(bs, n);
    forall i | 0 <= i < |bs| && bs[i].name == n ensures Defines(bs[i].attributes, BlockDef(bs[i])) {
      BlockDefIs(bs[i]);
      AttributedIs(bs[i].attributes);
    }
  }

  // ----- The pools -----

  /** channel_t, without its file; index is its number in its frame. */
  datatype Channel = Channel(name: Obname, index: nat, repcode: int, dimension: int, next: int, fNext: int)

  /** frame_t as far as its channels go. */
  datatype Frame = Frame(name: Obname, channels: int, current: int, next: int)

  function NewChannel(name: Obname): Channel { Channel(name, 0, DEFAULT.repcode, DEFAULT.dimension, NULL, NULL) }

  function Nexts(cs: seq<Channel>): (r: seq<int>)
    ensures |r| == |cs| && forall i :: 0 <= i < |cs| ==> r[i] == cs[i].next
  {
    seq(|cs|, i requires 0 <= i < |cs| => cs[i].next)
  }

  function FNexts(cs: seq<Channel>): (r: seq<int>)
    ensures |r| == |cs| && forall i :: 0 <= i < |cs| ==> r[i] == cs[i].fNext
  {
    seq(|cs|, i requires 0 <= i < |cs| => cs[i].fNext)
  }

  /** Where the channel of a name is; no two have the same name. */
  ghost predicate Named(cs: seq<Channel>, at: map<Obname, int>)
  {
    && (forall i :: 0 <= i < |cs| ==> cs[i].name in at && at[cs[i].name] == i)
    && (forall n :: n in at ==> 0 <= at[n] < |cs| && cs[at[n]].name == n)
  }

  ghost predicate FramesOk(fs: seq<Frame>, members: seq<seq<int>>)
  {
    && |fs| == |members|
    && forall f :: 0 <= f < |fs| ==>
         && fs[f].channels == At(members[f], 0) && fs[f].current == Last(members[f])
         && fs[f].next == (if f + 1 < |fs| then f + 1 else NULL)
  }

  /** The pools hold what was said of the frames. */
  ghost predicate FramesSaid(cs: seq<Channel>, fs: seq<Frame>, members: seq<seq<int>>, said: seq<Refs>)
  {
    && |fs| == |members| == |said|
    && (forall f :: 0 <= f < |fs| ==> fs[f].name == said[f].name && |said[f].refs| == |members[f]|)
    && (forall f, k :: 0 <= f < |fs| && 0 <= k < |members[f]| ==> 0 <= members[f][k] < |cs|)
    && (forall f, k :: 0 <= f < |fs| && 0 <= k < |members[f]| ==>
          var c := cs[members[f][k]];
          c.name == said[f].refs[k] && c.index == k + 1)
  }

  /** They hold what was said of the channels; the ones that have come are those of the list. */
  ghost predicate ChannelsSaid(cs: seq<Channel>, rank: seq<(int, int)>, at: map<Obname, int>, said: Said)
  {
    && |rank| == |cs|
    && (forall i :: 0 <= i < |cs| ==>
          && Def(cs[i].repcode, cs[i].dimension) == DefOf(said.defs, cs[i].name)
          && (rank[i] != FREE <==> cs[i].name in said.defs))
    && (forall n :: n in said.defs ==> n in at)
  }

  ghost predicate CurrentSaid(cs: seq<Channel>, order: seq<int>, said: Said)
  {
    && (order == [] <==> said.current.None?)
    && (order != [] ==>
          && 0 <= Last(order) < |cs|
          && said.current == Some(cs[Last(order)].name) && cs[Last(order)].name in said.defs)
  }

  /** A frame refers to the channel of a name iff the channel is in one of their lists. */
  lemma ReferredIs(cs: seq<Channel>, fs: seq<Frame>, members: seq<seq<int>>, home: seq<(int, int)>,
      at: map<Obname, int>,
      said: seq<Refs>, n: Obname)
    requires Lists(FNexts(cs), members, home) && Named(cs, at) && FramesSaid(cs, fs, members, said)
    ensures IsReferred(said, n) <==> n in at && home[at[n]] != FREE
  {
    if IsReferred(said, n) {
      var f :| 0 <= f < |said| && n in said[f].refs;
      var k :| 0 <= k < |said[f].refs| && said[f].refs[k] == n;
      assert cs[members[f][k]].name == n;
      ListsAt(FNexts(cs), members, home, f, k);
    }
    if n in at && home[at[n]] != FREE {
      assert Housed(members, home[at[n]], at[n]);
      var f, k := home[at[n]].0, home[at[n]].1;
      assert cs[members[f][k]].name == said[f].refs[k];
      assert n in said[f].refs;
    }
  }

  /** No channel of this list has the name. */
  ghost predicate Without(cs: seq<Channel>, list: seq<int>, name: Obname)
  {
    forall k :: 0 <= k < |list| ==> 0 <= list[k] < |cs| && cs[list[k]].name != name
  }

  lemma Nowhere(cs: seq<Channel>, links: seq<int>, lists: seq<seq<int>>, home: seq<(int, int)>,
      at: map<Obname, int>, name: Obname)
    requires Lists(links, lists, home) && Named(cs, at) && |cs| == |links|
    requires forall f :: 0 <= f < |lists| ==> Without(cs, lists[f], name)
    ensures !(name in at && home[at[name]] != FREE)
  {
    forall i | 0 <= i < |cs| && home[i] != FREE ensures cs[i].name != name {
      assert Housed(lists, home[i], i);
      assert Without(cs, lists[home[i].0], name);
    }
  }

  lemma FramesMembers(fs: seq<Frame>, members: seq<seq<int>>)
    requires FramesOk(fs, members)
    ensures |fs| == |members|
  {
  }

  lemma FrameAt(fs: seq<Frame>, members: seq<seq<int>>, f: nat)
    requires FramesOk(fs, members) && f < |fs|
    ensures |fs| == |members| && fs[f].channels == At(members[f], 0) && fs[f].current == Last(members[f])
    ensures fs[f].next == if f + 1 < |fs| then f + 1 else NULL
  {
  }

  // ----- Changes of the pools -----

  /** Channels that only differ in how they are linked, and in the index of one of them. */
  ghost predicate Alike(cs: seq<Channel>, ds: seq<Channel>, but: int)
  {
    && |cs| == |ds|
    && forall i :: 0 <= i < |cs| ==>
         && cs[i].name == ds[i].name && cs[i].repcode == ds[i].repcode && cs[i].dimension == ds[i].dimension
         && (i != but ==> cs[i].index == ds[i].index)
  }

  lemma NamedAlike(cs: seq<Channel>, ds: seq<Channel>, but: int, at: map<Obname, int>)
    requires Named(cs, at) && Alike(cs, ds, but)
    ensures Named(ds, at)
  {
  }

  lemma NamedNew(cs: seq<Channel>, at: map<Obname, int>, n: Obname)
    requires Named(cs, at) && n !in at
    ensures Named(cs + [NewChannel(n)], at[n := |cs|])
  {
  }

  lemma FramesSaidAlike(cs: seq<Channel>, ds: seq<Channel>, fs: seq<Frame>, gs: seq<Frame>, members: seq<seq<int>>,
      said: seq<Refs>)
    requires FramesSaid(cs, fs, members, said) && |cs| <= |ds| && Alike(cs, ds[..|cs|], NULL)
    requires |fs| == |gs| && forall f :: 0 <= f < |fs| ==> fs[f].name == gs[f].name
    ensures FramesSaid(ds, gs, members, said)
  {
    assert forall i :: 0 <= i < |cs| ==> ds[..|cs|][i] == ds[i];
  }

  /** A frame gets another channel, which was in none. */
  lemma FramesSaidMore(cs: seq<Channel>, ds: seq<Channel>, fs: seq<Frame>, gs: seq<Frame>, members: seq<seq<int>>,
      home: seq<(int, int)>, said: seq<Refs>, c: nat)
    requires FramesSaid(cs, fs, members, said) && Lists(FNexts(cs), members, home) && fs != []
    requires c < |cs| && home[c] == FREE && Alike(cs, ds, c)
    requires ds[c].index == |members[|fs| - 1]| + 1
    requires |fs| == |gs| && forall f :: 0 <= f < |fs| ==> fs[f].name == gs[f].name
    ensures var f := |fs| - 1;
            FramesSaid(ds, gs, members[f := members[f] + [c]], Referred(said, cs[c].name))
  {
    hide Lists, Alike, FNexts;
    var f := |fs| - 1;
    var ms, ss := members[f := members[f] + [c]], Referred(said, cs[c].name);
    AlikeAll(cs, ds, c);
    forall g, k | 0 <= g < |gs| && 0 <= k < |ms[g]|
      ensures 0 <= ms[g][k] < |ds| && ds[ms[g][k]].name == ss[g].refs[k] && ds[ms[g][k]].index == k + 1
    {
      if g == f && k == |members[f]| {
      } else {
        ListsAt(FNexts(cs), members, home, g, k);
        MemberKept(cs, fs, members, said, g, k);
        assert ms[g][k] == members[g][k] && ss[g].refs[k] == said[g].refs[k];
      }
    }
  }

  lemma AlikeAll(cs: seq<Channel>, ds: seq<Channel>, but: int)
    requires Alike(cs, ds, but)
    ensures |cs| == |ds|
    ensures forall i :: 0 <= i < |cs| ==> ds[i].name == cs[i].name && (i != but ==> ds[i].index == cs[i].index)
  {
  }

  lemma MemberKept(cs: seq<Channel>, fs: seq<Frame>, members: seq<seq<int>>, said: seq<Refs>, f: nat, k: nat)
    requires FramesSaid(cs, fs, members, said) && f < |fs| && k < |members[f]|
    ensures |said[f].refs| == |members[f]| && 0 <= members[f][k] < |cs|
    ensures cs[members[f][k]].name == said[f].refs[k] && cs[members[f][k]].index == k + 1
  {
  }

  /** A new frame without channels. */
  lemma FramesBegin(cs: seq<Channel>, fs: seq<Frame>, gs: seq<Frame>, members: seq<seq<int>>, said: seq<Refs>,
      n: Obname)
    requires FramesOk(fs, members) && FramesSaid(cs, fs, members, said)
    requires |gs| == |fs| && forall f :: 0 <= f < |fs| ==> gs[f] == fs[f].(next := f + 1)
    ensures FramesOk(gs + [Frame(n, NULL, NULL, NULL)], members + [[]])
    ensures FramesSaid(cs, gs + [Frame(n, NULL, NULL, NULL)], members + [[]], said + [Refs(n, [])])
  {
    var ms, ss, hs := members + [[]], said + [Refs(n, [])], gs + [Frame(n, NULL, NULL, NULL)];
    assert forall f :: 0 <= f < |fs| ==> ms[f] == members[f] && ss[f] == said[f] && hs[f] == gs[f];
  }

  lemma FramesMore(fs: seq<Frame>, gs: seq<Frame>, members: seq<seq<int>>, c: nat)
    requires FramesOk(fs, members) && fs != [] && |gs| == |fs|
    requires var f := |fs| - 1;
             gs == fs[f := fs[f].(channels := if fs[f].channels == NULL then c else fs[f].channels, current := c)]
    requires fs[|fs| - 1].channels == NULL <==> members[|fs| - 1] == []
    ensures FramesOk(gs, members[|fs| - 1 := members[|fs| - 1] + [c]])
  {
  }

  lemma ChannelsSaidAlike(cs: seq<Channel>, ds: seq<Channel>, but: int, rank: seq<(int, int)>, at: map<Obname, int>,
      said: Said, frames: seq<Refs>)
    requires ChannelsSaid(cs, rank, at, said) && Alike(cs, ds, but)
    ensures ChannelsSaid(ds, rank, at, said.(frames := frames))
  {
  }

  lemma ChannelsSaidNew(cs: seq<Channel>, rank: seq<(int, int)>, at: map<Obname, int>, said: Said, n: Obname)
    requires ChannelsSaid(cs, rank, at, said) && n !in at
    ensures ChannelsSaid(cs + [NewChannel(n)], rank + [FREE], at[n := |cs|], said)
  {
  }

  lemma ChannelsSaidMore(cs: seq<Channel>, ds: seq<Channel>, rank: seq<(int, int)>, at: map<Obname, int>,
      said: Said, c: nat, place: (int, int))
    requires ChannelsSaid(cs, rank, at, said) && Alike(cs, ds, NULL) && Named(cs, at) && c < |cs|
    requires rank[c] == FREE && place != FREE
    ensures ChannelsSaid(ds, rank[c := place], at, Say(said, ChannelObject(cs[c].name)))
  {
    assert cs[c].name !in said.defs;
  }

  class Linker {
    var pool: seq<Channel>         // every channel_t that was allocated
    var frames: seq<Frame>         // every frame_t, the first one inside dlis_t
    var currentFrame: int
    var channels: int
    var currentChannel: int

    ghost var order: seq<int>      // the list from channels on
    ghost var rank: seq<(int, int)>
    ghost var members: seq<seq<int>>   // the list of each frame
    ghost var home: seq<(int, int)>
    ghost var at: map<Obname, int>
    ghost var said: Said

    ghost predicate Structure()
      reads this
    {
      && Lists(Nexts(pool), [order], rank) && channels == At(order, 0) && currentChannel == Last(order)
      && Lists(FNexts(pool), members, home) && FramesOk(frames, members) && currentFrame == |frames| - 1
      && Named(pool, at)
    }

    ghost predicate Valid()
      reads this
    {
      && Structure()
      && FramesSaid(pool, frames, members, said.frames) && ChannelsSaid(pool, rank, at, said)
      && CurrentSaid(pool, order, said)
    }

    /** dlis_init */
    constructor ()
      ensures Valid() && NoneLost(NULL) && said == NOTHING
    {
      pool, frames, currentFrame, channels, currentChannel := [], [], NULL, NULL, NULL;
      order, rank, members, home, at, said := [], [], [], [], map[], NOTHING;
    }

    lemma StructureIs()
      requires Structure()
      ensures Lists(Nexts(pool), [order], rank) && channels == At(order, 0) && currentChannel == Last(order)
      ensures Lists(FNexts(pool), members, home) && FramesOk(frames, members) && currentFrame == |frames| - 1
      ensures Named(pool, at)
    {
    }

    /** The walk over the frames and their channels that looks for a name. */
    method FindInFrames(name: Obname) returns (c: int)
      requires Structure()
      ensures c == if name in at && home[at[name]] != FREE then at[name] else NULL
    {
      hide Structure, Lists, Without, Named, FramesOk, At, Last;
      StructureIs();
      FramesMembers(frames, members);
      var f := if frames == [] then NULL else 0;
      ghost var g := 0;
      while f != NULL
        invariant 0 <= g <= |frames| && f == (if g < |frames| then g else NULL)
        invariant forall h :: 0 <= h < g ==> Without(pool, members[h], name)
        decreases |frames| - g
      {
        c := FindInFrame(f, name);
        if c != NULL {
          return;
        }
        FrameAt(frames, members, f);
        f := frames[f].next;
        g := g + 1;
      }
      Nowhere(pool, FNexts(pool), members, home, at, name);
      return NULL;
    }

    /** The inner walk. */
    method FindInFrame(f: nat, name: Obname) returns (c: int)
      requires Structure() && f < |frames|
      ensures c == NULL ==> Without(pool, members[f], name)
      ensures c != NULL ==> name in at && 0 <= c < |home| && c == at[name] && home[c] != FREE
    {
      hide Structure, Lists;
      StructureIs();
      ListsIn(FNexts(pool), members, home, f);
      c := frames[f].channels;
      ghost var k := 0;
      while c != NULL
        invariant 0 <= k <= |members[f]| && c == At(members[f], k)
        invariant forall j :: 0 <= j < k ==> pool[members[f][j]].name != name
        decreases |members[f]| - k
      {
        ListsAt(FNexts(pool), members, home, f, k);
        if pool[c].name == name {
          return;
        }
        c := pool[c].fNext;
        k := k + 1;
      }
    }

    /** The walk over all channels that have come. */
    method FindInChannels(name: Obname) returns (c: int)
      requires Structure()
      ensures c == if name in at && rank[at[name]] != FREE then at[name] else NULL
    {
      hide Structure, Lists;
      StructureIs();
      assert [order][0] == order;
      ListsIn(Nexts(pool), [order], rank, 0);
      c := channels;
      ghost var k := 0;
      while c != NULL
        invariant 0 <= k <= |order| && c == At(order, k)
        invariant forall j :: 0 <= j < k ==> pool[order[j]].name != name
        decreases |order| - k
      {
        ListsAt(Nexts(pool), [order], rank, 0, k);
        if pool[c].name == name {
          return;
        }
        c := pool[c].next;
        k := k + 1;
      }
      Nowhere(pool, Nexts(pool), [order], rank, at, name);
    }

    /** Every channel but one is in a list. */
    ghost predicate NoneLost(but: int)
      reads this
    {
      |rank| == |home| && forall i :: 0 <= i < |rank| && i != but ==> rank[i] != FREE || home[i] != FREE
    }

    /** malloc and channel_init */
    method Allocate(name: Obname) returns (c: int)
      requires Valid() && NoneLost(NULL) && name !in at
      modifies this`pool, this`rank, this`home, this`at
      ensures Valid() && c == |old(pool)| && at == old(at)[name := c] && 0 <= c < |pool| && pool[c].name == name
      ensures |rank| == |home| == |pool| && rank[c] == FREE && home[c] == FREE && NoneLost(c)
    {
      hide Lists, Named, FramesSaid, ChannelsSaid, FramesOk;
      ListsNew(Nexts(pool), [order], rank);
      ListsNew(FNexts(pool), members, home);
      NamedNew(pool, at, name);
      ChannelsSaidNew(pool, rank, at, said, name);
      c := |pool|;
      ghost var cs := pool;
      Sizes(cs, rank, home, order, members);
      pool := pool + [NewChannel(name)];
      assert Nexts(pool) == Nexts(cs) + [NULL] && FNexts(pool) == FNexts(cs) + [NULL];
      assert pool[..|cs|] == cs;
      AlikeSame(cs);
      FramesSaidAlike(cs, pool, frames, frames, members, said.frames);
      rank, home, at := rank + [FREE], home + [FREE], at[name := c];
    }

    lemma Sizes(cs: seq<Channel>, rank: seq<(int, int)>, home: seq<(int, int)>, order: seq<int>, members: seq<seq<int>>)
      requires Lists(Nexts(cs), [order], rank) && Lists(FNexts(cs), members, home)
      ensures |cs| == |rank| == |home|
    {
    }

    lemma AlikeSame(cs: seq<Channel>)
      ensures Alike(cs, cs, NULL)
    {
    }

    /** The pointers when a channel becomes the current one. */
    method PointTo(c: nat)
      requires Structure() && c < |pool|
      modifies this`pool, this`channels, this`currentChannel
      ensures |pool| == |old(pool)| && Alike(old(pool), pool, NULL) && pool[..|pool|] == pool
      ensures Nexts(pool) == Linked(Nexts(old(pool)), Last(order), c) && FNexts(pool) == FNexts(old(pool))
      ensures channels == At(order + [c], 0) && currentChannel == c
    {
      hide Lists, Named, FramesOk;
      assert [order][0] == order;
      ListsLast(Nexts(pool), [order], rank, 0);
      if currentChannel == NULL {
        channels := c;
        currentChannel := c;
      } else {
        pool := pool[currentChannel := pool[currentChannel].(next := c)];
        currentChannel := c;
      }
    }

    /** The channel becomes the current one, behind the others that have come. */
    method LinkChannel(c: nat)
      requires Valid() && c < |pool| == |rank| && rank[c] == FREE && NoneLost(c)
      modifies this`pool, this`channels, this`currentChannel, this`order, this`rank, this`said
      ensures Valid() && NoneLost(NULL) && said == Say(old(said), ChannelObject(old(pool)[c].name))
    {
      hide Lists, Named, FramesSaid, ChannelsSaid, FramesOk, Say, Alike, Linked;
      ghost var cs, name := pool, pool[c].name;
      ListsAppend(Nexts(cs), [order], rank, 0, c);
      assert [order][0 := [order][0] + [c as int]] == [order + [c]];
      PointTo(c);
      NamedAlike(cs, pool, NULL, at);
      FramesSaidAlike(cs, pool, frames, frames, members, said.frames);
      ChannelsSaidMore(cs, pool, rank, at, said, c, (0, |order|));
      CurrentIs(said, name);
      AlikeAt(cs, pool, c);
      rank := rank[c := (0, |order|)];
      order := order + [c];
      said := Say(said, ChannelObject(name));
    }

    lemma AlikeAt(cs: seq<Channel>, ds: seq<Channel>, c: nat)
      requires Alike(cs, ds, NULL) && c < |cs|
      ensures |ds| == |cs| && ds[c].name == cs[c].name
    {
    }

    lemma CurrentIs(s: Said, n: Obname)
      ensures Say(s, ChannelObject(n)).current == Some(n) && n in Say(s, ChannelObject(n)).defs
      ensures Say(s, ChannelObject(n)).frames == s.frames
    {
    }

    /** on_eflr_component_object for a CHANNEL set. */
    method ChannelObjectRead(name: Obname)
      requires Valid() && NoneLost(NULL) && name !in said.defs
      modifies this
      ensures Valid() && NoneLost(NULL) && said == Say(old(said), ChannelObject(name))
    {
      hide Lists, FramesSaid, ChannelsSaid, FramesOk, Say, CurrentSaid;
      var c := FindInFrames(name);
      NewName(pool, rank, home, order, members, at, said, name);
      if c == NULL {
        c := Allocate(name);
      }
      LinkChannel(c);
    }

    /** What has not come is in no list of those that have, and new unless a frame refers to it. */
    lemma NewName(cs: seq<Channel>, rank: seq<(int, int)>, home: seq<(int, int)>, order: seq<int>,
        members: seq<seq<int>>,
        at: map<Obname, int>, said: Said, n: Obname)
      requires Lists(Nexts(cs), [order], rank) && Lists(FNexts(cs), members, home) && Named(cs, at) &&
          ChannelsSaid(cs, rank, at, said)
      ensures |cs| == |rank| == |home|
      ensures n in at ==> 0 <= at[n] < |cs| && cs[at[n]].name == n && (rank[at[n]] == FREE <==> n !in said.defs)
      ensures n !in at ==> n !in said.defs
    {
    }

    /** The pointers when a channel becomes the last one of the current frame. */
    method FPointTo(c: nat)
      requires Structure() && FramesSaid(pool, frames, members, said.frames) && c < |pool| == |home| && home[c] == FREE
      requires currentFrame != NULL
      modifies this`pool, this`frames
      ensures |pool| == |old(pool)| && Alike(old(pool), pool, c) && |frames| == |old(frames)|
      ensures forall f :: 0 <= f < |frames| ==> frames[f].name == old(frames)[f].name
      ensures pool[c].index == |members[currentFrame]| + 1
      ensures Nexts(pool) == Nexts(old(pool)) &&
          FNexts(pool) == Linked(FNexts(old(pool)), Last(members[currentFrame]), c)
      ensures FramesOk(frames, members[currentFrame := members[currentFrame] + [c as int]])
    {
      hide Lists, Named, FramesOk, FramesSaid;
      var f := currentFrame;
      ghost var fs := frames;
      FrameAt(frames, members, f);
      ListsLast(FNexts(pool), members, home, f);
      ListsIn(FNexts(pool), members, home, f);
      LastIndex(pool, frames, members, said.frames, f);
      if frames[f].channels == NULL {
        frames := frames[f := frames[f].(channels := c)];
        pool := pool[c := pool[c].(index := 1)];
      } else {
        var last := frames[f].current;
        pool := pool[c := pool[c].(index := pool[last].index + 1)];
        pool := pool[last := pool[last].(fNext := c)];
      }
      frames := frames[f := frames[f].(current := c)];
      FramesMore(fs, frames, members, c);
    }

    lemma LastIndex(cs: seq<Channel>, fs: seq<Frame>, members: seq<seq<int>>, said: seq<Refs>, f: nat)
      requires FramesSaid(cs, fs, members, said) && f < |fs|
      ensures |members| == |fs|
      ensures members[f] != [] ==> 0 <= Last(members[f]) < |cs| && cs[Last(members[f])].index == |members[f]|
    {
    }

    /** The channel becomes the last one of the current frame. */
    method Enlist(c: nat)
      requires Valid() && c < |pool| == |home| && home[c] == FREE && NoneLost(c) && currentFrame != NULL
      modifies this`pool, this`frames, this`members, this`home, this`said
      ensures Valid() && NoneLost(NULL) && said == Say(old(said), RefersTo(old(pool)[c].name))
    {
      hide Lists, Named, FramesSaid, ChannelsSaid, FramesOk, Alike, Linked;
      ghost var cs, f := pool, currentFrame;
      ghost var name := pool[c].name;
      FramesMembers(frames, members);
      ListsAppend(FNexts(pool), members, home, f, c);
      FPointTo(c);
      NamedAlike(cs, pool, c, at);
      FramesSaidMore(cs, pool, old(frames), frames, members, home, said.frames, c);
      ChannelsSaidAlike(cs, pool, c, rank, at, said, Referred(said.frames, name));
      AlikeNames(cs, pool, c);
      home := home[c := (f, |members[f]|)];
      members := members[f := members[f] + [c as int]];
      said := Say(said, RefersTo(name));
    }

    lemma AlikeNames(cs: seq<Channel>, ds: seq<Channel>, but: int)
      requires Alike(cs, ds, but)
      ensures |cs| == |ds| && forall i :: 0 <= i < |cs| ==> cs[i].name == ds[i].name
    {
    }

    /** on_eflr_component_attrib_value for the attribute CHANNELS of a FRAME set. */
    method ReferenceRead(name: Obname)
      requires Valid() && NoneLost(NULL) && Allowed(said, RefersTo(name))
      modifies this
      ensures Valid() && NoneLost(NULL) && said == Say(old(said), RefersTo(name))
    {
      hide Lists, FramesSaid, ChannelsSaid, FramesOk, Say, CurrentSaid, IsReferred;
      ReferredIs(pool, frames, members, home, at, said.frames, name);
      NewName(pool, rank, home, order, members, at, said, name);
      SaidFrames(pool, frames, members, said.frames);
      var c := FindInChannels(name);
      if c == NULL {
        c := Allocate(name);
      }
      Enlist(c);
    }

    lemma SaidFrames(cs: seq<Channel>, fs: seq<Frame>, members: seq<seq<int>>, said: seq<Refs>)
      requires FramesSaid(cs, fs, members, said)
      ensures |fs| == |said|
    {
    }

    /** on_eflr_component_object for a FRAME set. */
    method FrameObjectRead(name: Obname)
      requires Valid() && NoneLost(NULL)
      modifies this`frames, this`currentFrame, this`members, this`said
      ensures Valid() && NoneLost(NULL) && said == Say(old(said), FrameObject(name))
    {
      hide Lists, Named, ChannelsSaid, FramesSaid, FramesOk;
      ListsMore(FNexts(pool), members, home);
      NextsIs(frames, members);
      ghost var fs, before := frames, said;
      if currentFrame == NULL {
        currentFrame := 0;
      } else {
        frames := frames[currentFrame := frames[currentFrame].(next := |frames|)];
        currentFrame := |frames|;
      }
      FramesBegin(pool, fs, frames, members, before.frames, name);
      frames := frames + [Frame(name, NULL, NULL, NULL)];
      members := members + [[]];
      said := Say(said, FrameObject(name));
      AlikeSame(pool);
      ChannelsSaidAlike(pool, pool, NULL, rank, at, before, said.frames);
    }

    lemma NextsIs(fs: seq<Frame>, members: seq<seq<int>>)
      requires FramesOk(fs, members)
      ensures forall f :: 0 <= f < |fs| ==> fs[f].next == if f + 1 < |fs| then f + 1 else NULL
    {
    }

    /** The attributes of the current channel, in on_eflr_component_attrib_value. */
    method DimensionRead(n: nat)
      requires Valid() && NoneLost(NULL) && said.current.Some?
      modifies this`pool, this`said
      ensures Valid() && NoneLost(NULL) && said == Say(old(said), Dimension(n))
    {
      hide Lists, FramesOk;
      var d := pool[currentChannel].dimension * n;
      Redefined(pool, pool[currentChannel := pool[currentChannel].(dimension := d)]);
      pool := pool[currentChannel := pool[currentChannel].(dimension := d)];
      said := Say(said, Dimension(n));
    }

    method RepCodeRead(code: nat)
      requires Valid() && NoneLost(NULL) && said.current.Some?
      modifies this`pool, this`said
      ensures Valid() && NoneLost(NULL) && said == Say(old(said), RepCode(code))
    {
      hide Lists, FramesOk;
      Redefined(pool, pool[currentChannel := pool[currentChannel].(repcode := code)]);
      pool := pool[currentChannel := pool[currentChannel].(repcode := code)];
      said := Say(said, RepCode(code));
    }

    lemma Redefined(cs: seq<Channel>, ds: seq<Channel>)
      requires |cs| == |ds| && forall i :: 0 <= i < |cs| ==> ds[i].next == cs[i].next && ds[i].fNext == cs[i].fNext
      ensures Nexts(cs) == Nexts(ds) && FNexts(cs) == FNexts(ds)
    {
    }

    /** The channels of a frame as the decoder of frame data finds them, one after the other. */
    method ReadFrame(f: nat) returns (links: seq<Link>)
      requires Valid() && f < |frames|
      ensures f < |said.frames| && frames[f].name == said.frames[f].name
      ensures links == LinksOf(said.frames[f].refs, said.defs)
    {
      hide Lists, FramesSaid, FramesOk, ChannelsSaid;
      SaidFrame(pool, frames, members, said.frames, f);
      FrameAt(frames, members, f);
      links := [];
      var c := frames[f].channels;
      while c != NULL
        invariant |links| <= |members[f]| && c == At(members[f], |links|)
        invariant links == LinksOf(said.frames[f].refs, said.defs)[..|links|]
        decreases |members[f]| - |links|
      {
        ghost var k := |links|;
        MemberKept(pool, frames, members, said.frames, f, k);
        ListsAt(FNexts(pool), members, home, f, k);
        DefIs(pool, rank, at, said, c);
        links := links + [Link(pool[c].name, pool[c].index, Def(pool[c].repcode, pool[c].dimension))];
        c := pool[c].fNext;
      }
    }

    lemma SaidFrame(cs: seq<Channel>, fs: seq<Frame>, members: seq<seq<int>>, said: seq<Refs>, f: nat)
      requires FramesSaid(cs, fs, members, said) && f < |fs|
      ensures |fs| == |said| == |members| && fs[f].name == said[f].name && |said[f].refs| == |members[f]|
      ensures forall k :: 0 <= k < |members[f]| ==> 0 <= members[f][k] < |cs|
    {
    }

    lemma DefIs(cs: seq<Channel>, rank: seq<(int, int)>, at: map<Obname, int>, said: Said, c: int)
      requires ChannelsSaid(cs, rank, at, said) && 0 <= c < |cs|
      ensures Def(cs[c].repcode, cs[c].dimension) == DefOf(said.defs, cs[c].name)
    {
    }

    /** The objects and attribute values of a file, in the order in which they come. */
    method LinkAll(es: seq<Event>)
      requires Valid() && NoneLost(NULL) && said == NOTHING && AllAllowed(es)
      modifies this
      ensures Valid() && NoneLost(NULL) && said == SayAll(es)
    {
      hide Valid, NoneLost, Say, Allowed;
      for i := 0 to |es|
        invariant Valid() && NoneLost(NULL) && said == SayAll(es[..i])
      {
        AllowedAt(es, i);
        assert es[..i + 1][..i] == es[..i];
        AllowedIs(said, es[i]);
        match es[i] {
          case FrameObject(n) => FrameObjectRead(n);
          case RefersTo(n) => ReferenceRead(n);
          case ChannelObject(n) => ChannelObjectRead(n);
          case Dimension(n) => DimensionRead(n);
          case RepCode(r) => RepCodeRead(r);
        }
      }
      assert es[..|es|] == es;
    }

    lemma AllowedIs(s: Said, e: Event)
      requires Allowed(s, e)
      ensures e.ChannelObject? ==> e.name !in s.defs
      ensures e.Dimension? || e.RepCode? ==> s.current.Some?
    {
    }

    lemma {:induction false} AllowedAt(es: seq<Event>, i: nat)
      requires AllAllowed(es) && i < |es|
      ensures Allowed(SayAll(es[..i]), es[i])
    {
      hide Allowed;
      var n := |es| - 1;
      if i < n {
        AllowedAt(es[..n], i);
        assert es[..n][..i] == es[..i];
      }
    }
  }
}
