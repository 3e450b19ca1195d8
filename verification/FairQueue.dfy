/** fq_t of libzmq (src/fq.cpp): the pipes at the front of an array are read in turn.  A ghost history of what
    was delivered, and of the pipes that were found empty, shows that no pipe is passed over for long. */
module FairQueue {
  import opened Bytes
  import opened PipeArray

  const FQ_ID: nat := 1

  /** A whole message delivered, or a pipe found empty, in some round. */
  datatype Event =
    | Delivered(pipe: Pipe, round: nat)
    | Deactivated(pipe: Pipe, round: nat)

  // ----- Histories -----

  /** There is no later event of the pipe of event i. */
  predicate IsLast(h: seq<Event>, i: nat)
    requires i < |h|
  {
    forall j :: i < j < |h| ==> h[j].pipe != h[i].pipe
  }

  predicate InOrder(h: seq<Event>, round: nat)
  {
    && (forall i, j :: 0 <= i < j < |h| ==> h[i].round <= h[j].round)
    && (forall i :: 0 <= i < |h| ==> h[i].round <= round)
  }

  /** No pipe is served twice in a round. */
  predicate ServedOnce(h: seq<Event>)
  {
    forall i, j :: 0 <= i < j < |h| && h[i].Delivered? && h[j].Delivered? && h[i].pipe == h[j].pipe ==>
      h[i].round != h[j].round
  }

  /** A pipe that is not found empty in between is served in the very next round. */
  predicate NextRound(h: seq<Event>)
  {
    forall i, j :: 0 <= i < j < |h| && Consecutive(h, i, j) ==> h[j].round <= h[i].round + 1
  }

  /** Two deliveries of a pipe, with nothing of this pipe between them. */
  predicate Consecutive(h: seq<Event>, i: nat, j: nat)
    requires i < j < |h|
  {
    && h[i].Delivered? && h[j].Delivered? && h[i].pipe == h[j].pipe
    && forall k :: i < k < j ==> h[k].pipe != h[i].pipe
  }

  /** The pipes in served have had a message in this round, and no others. */
  predicate ServedNow(h: seq<Event>, served: set<Pipe>, round: nat)
  {
    && (forall p :: p in served ==> Delivered(p, round) in h)
    && (forall i :: 0 <= i < |h| && h[i].Delivered? && h[i].round == round ==> h[i].pipe in served)
  }

  /** A pipe whose last event is a delivery is active, and was served in this round or the one before. */
  predicate Recent(h: seq<Event>, active: set<Pipe>, round: nat)
  {
    forall i :: 0 <= i < |h| && h[i].Delivered? && IsLast(h, i) ==>
      h[i].pipe in active && round <= h[i].round + 1
  }

  predicate Fair(h: seq<Event>, served: set<Pipe>, active: set<Pipe>, round: nat)
  {
    && InOrder(h, round) && ServedOnce(h) && NextRound(h)
    && served <= active && ServedNow(h, served, round) && Recent(h, active, round)
  }

  lemma OrderGrows(h: seq<Event>, e: Event, round: nat)
    requires InOrder(h, round) && e.round == round
    ensures InOrder(h + [e], round)
  {
  }

  lemma OnceGrows(h: seq<Event>, e: Event)
    requires ServedOnce(h)
    requires e.Delivered? ==> forall i :: 0 <= i < |h| && h[i].Delivered? && h[i].pipe == e.pipe ==>
        h[i].round != e.round
    ensures ServedOnce(h + [e])
  {
  }

  lemma ConsecutiveWithin(h: seq<Event>, e: Event, i: nat, j: nat)
    requires i < j <= |h| && Consecutive(h + [e], i, j)
    ensures j < |h| ==> Consecutive(h, i, j)
    ensures j == |h| ==> IsLast(h, i)
  {
    var t := h + [e];
    assert forall k :: i < k < j ==> t[k] == h[k];
  }

  lemma NextGrows(h: seq<Event>, e: Event)
    requires NextRound(h)
    requires e.Delivered? ==>
               forall i :: 0 <= i < |h| && h[i].Delivered? && IsLast(h, i) && h[i].pipe == e.pipe ==>
                   e.round <= h[i].round + 1
    ensures NextRound(h + [e])
  {
    hide IsLast;
    var t := h + [e];
    forall i, j | 0 <= i < j < |t| && Consecutive(t, i, j) ensures t[j].round <= t[i].round + 1 {
      ConsecutiveWithin(h, e, i, j);
      assert t[i] == h[i];
    }
  }

  lemma LastWithin(h: seq<Event>, e: Event, i: nat)
    requires i < |h| && IsLast(h + [e], i)
    ensures IsLast(h, i) && h[i].pipe != e.pipe
  {
    var t := h + [e];
    assert t[|h|] == e;
    assert forall j :: i < j < |h| ==> t[j] == h[j];
  }

  /** What is recent stays so; the pipe of the new event must be active if it was served. */
  lemma RecentGrows(h: seq<Event>, e: Event, active: set<Pipe>, active': set<Pipe>, round: nat)
    requires Recent(h, active, round) && e.round == round
    requires active - {e.pipe} <= active' && (e.Delivered? ==> e.pipe in active')
    ensures Recent(h + [e], active', round)
  {
    hide IsLast;
    var t := h + [e];
    forall i | 0 <= i < |t| && t[i].Delivered? && IsLast(t, i) ensures t[i].pipe in active' && round <= t[i].round + 1 {
      if i < |h| {
        LastWithin(h, e, i);
      }
    }
  }

  lemma ServedGrows(h: seq<Event>, e: Event, served: set<Pipe>, round: nat)
    requires ServedNow(h, served, round) && e.round == round
    ensures ServedNow(h + [e], if e.Delivered? then served + {e.pipe} else served, round)
  {
    assert (h + [e])[|h|] == e;
  }

  lemma DeliverKeeps(h: seq<Event>, served: set<Pipe>, active: set<Pipe>, round: nat, p: Pipe)
    requires Fair(h, served, active, round) && p in active && p !in served
    ensures Fair(h + [Delivered(p, round)], served + {p}, active, round)
  {
    hide InOrder, ServedOnce, NextRound, IsLast;
    var e := Delivered(p, round);
    OrderGrows(h, e, round);
    OnceGrows(h, e);
    NextGrows(h, e);
    RecentGrows(h, e, active, active, round);
    ServedGrows(h, e, served, round);
  }

  lemma DeactivateKeeps(h: seq<Event>, served: set<Pipe>, active: set<Pipe>, round: nat, p: Pipe)
    requires Fair(h, served, active, round) && p in active && p !in served
    ensures Fair(h + [Deactivated(p, round)], served, active - {p}, round)
  {
    hide InOrder, ServedOnce, NextRound, IsLast, Recent, ServedNow;
    var e := Deactivated(p, round);
    OrderGrows(h, e, round);
    OnceGrows(h, e);
    NextGrows(h, e);
    RecentGrows(h, e, active, active - {p}, round);
    ServedGrows(h, e, served, round);
  }

  /** A new round begins once every active pipe has been served. */
  lemma RoundKeeps(h: seq<Event>, active: set<Pipe>, round: nat)
    requires Fair(h, active, active, round)
    ensures Fair(h, {}, active, round + 1)
  {
    forall i | 0 <= i < |h| && h[i].Delivered? && IsLast(h, i) ensures round + 1 <= h[i].round + 1 {
      assert Delivered(h[i].pipe, round) in h;
      var j :| 0 <= j < |h| && h[j] == Delivered(h[i].pipe, round);
      assert j <= i;
    }
  }

  lemma JoinKeeps(h: seq<Event>, served: set<Pipe>, active: set<Pipe>, round: nat, p: Pipe)
    requires Fair(h, served, active, round)
    ensures Fair(h, served, active + {p}, round)
  {
  }

  // ----- Bounded bypass -----

  /** The messages of q in a stretch of the history. */
  function Count(h: seq<Event>, i: nat, j: nat, q: Pipe): nat
    requires i <= j <= |h|
  {
    if i == j then 0 else Count(h, i, j - 1, q) + (if h[j - 1].Delivered? && h[j - 1].pipe == q then 1 else 0)
  }

  /** In a stretch that lies within one round q gets at most one message. */
  lemma {:induction false} CountInRound(h: seq<Event>, i: nat, j: nat, q: Pipe, round: nat)
    requires i <= j <= |h| && ServedOnce(h) && forall k :: i <= k < j ==> h[k].round == round
    ensures Count(h, i, j, q) <= 1
    ensures Count(h, i, j, q) == 1 ==> exists k :: i <= k < j && h[k] == Delivered(q, round)
  {
    if i < j {
      CountInRound(h, i, j - 1, q, round);
    }
  }

  lemma {:induction false} CountSplit(h: seq<Event>, i: nat, k: nat, j: nat, q: Pipe)
    requires i <= k <= j <= |h|
    ensures Count(h, i, j, q) == Count(h, i, k, q) + Count(h, k, j, q)
    decreases j - k
  {
    if k < j {
      CountSplit(h, i, k, j - 1, q);
    }
  }

  lemma {:induction false} RoundEnds(h: seq<Event>, i: nat, j: nat, round: nat) returns (k: nat)
    requires i <= j <= |h| && forall a, b :: i <= a < b < j ==> h[a].round <= h[b].round
    ensures i <= k <= j
    ensures (forall a :: i <= a < k ==> h[a].round <= round) && forall a :: k <= a < j ==> h[a].round > round
    decreases j - i
  {
    k := j;
    if i < j && h[j - 1].round > round {
      k := RoundEnds(h, i, j - 1, round);
    }
  }

  /** Between two messages of a pipe that is never found empty meanwhile, any other pipe gets at most two. */
  lemma BoundedBypass(h: seq<Event>, served: set<Pipe>, active: set<Pipe>, round: nat, i: nat, j: nat, q: Pipe)
    requires Fair(h, served, active, round) && i < j < |h| && Consecutive(h, i, j)
    ensures Count(h, i, j, q) <= 2
  {
    var r := h[i].round;
    var k := RoundEnds(h, i, j, r);
    CountInRound(h, i, k, q, r);
    CountInRound(h, k, j, q, r + 1);
    CountSplit(h, i, k, j, q);
  }

  // ----- The queue -----

  class FairQueue {
    const pipes: PipeArray
    var active: nat
    var current: nat
    var more: bool

    ghost var history: seq<Event>
    ghost var round: nat

    ghost predicate Core()
      reads this, pipes, pipes.items`arrayIndex
    {
      && pipes.Valid() && pipes.id == FQ_ID && active <= |pipes.items|
      && (if active == 0 then current == 0 else current < active)
      && (more ==> active > 0)
    }

    /** The pipes in front of the current one are those served in this round. */
    ghost predicate Turning()
      reads this, pipes, pipes.items`arrayIndex
    {
      Core() && Fair(history, First(pipes.items, current), First(pipes.items, active), round)
    }

    /** Peers flush whole messages, so the rest of one that has begun is there. */
    ghost predicate Fed()
      reads this, pipes, pipes.items`inActive, pipes.items`inbound
    {
      && active <= |pipes.items|
      && (forall p :: p in pipes.items ==> Whole(p.inbound))
      && (forall p :: p in Active() ==> p.inActive)
      && (more ==> current < |pipes.items| && pipes.items[current].inbound != [])
    }

    ghost predicate Valid()
      reads this, pipes, pipes.items`arrayIndex, pipes.items`inActive, pipes.items`inbound
    {
      Turning() && Fed()
    }

    ghost function Active(): set<Pipe>
      requires active <= |pipes.items|
      reads this, pipes
    {
      First(pipes.items, active)
    }

    ghost function All(): set<Pipe>
      reads this, pipes
    {
      First(pipes.items, |pipes.items|)
    }

    constructor ()
      ensures Valid() && pipes.items == [] && history == [] && !more && fresh(pipes)
    {
      pipes := new PipeArray(FQ_ID);
      active, current, more := 0, 0, false;
      history, round := [], 0;
    }

    /** The array part of attach. */
    method Place(p: Pipe)
      requires Turning() && p !in pipes.items
      modifies this`active, pipes`items, pipes.items`arrayIndex, p`arrayIndex
      ensures Turning() && All() == old(All()) + {p} && Active() == old(Active()) + {p}
      ensures From(pipes.items, old(pipes.items) + [p])
      ensures more ==> pipes.items[current] == old(pipes.items[current])
    {
      hide First, Distinct, Fair;
      pipes.AllDistinct();
      Pushed(pipes.items, p, active, current);
      JoinKeeps(history, First(pipes.items, current), Active(), round, p);
      pipes.PushBack(p);
      pipes.Swap(active, |pipes.items| - 1);
      active := active + 1;
    }

    method Attach(p: Pipe)
      requires Valid() && p !in pipes.items && p.inActive && Whole(p.inbound)
      modifies this`active, pipes`items, pipes.items`arrayIndex, p`arrayIndex
      ensures Valid() && All() == old(All()) + {p} && Active() == old(Active()) + {p}
      ensures more ==> pipes.items[current] == old(pipes.items[current])
    {
      hide First, Fair, PipeArray.Valid, Whole;
      Place(p);
    }

    /** The array part of activated. */
    method Promote(p: Pipe)
      requires Turning() && p in pipes.items && p !in Active()
      modifies this`active, pipes`items, pipes.items`arrayIndex
      ensures Turning() && All() == old(All()) && Active() == old(Active()) + {p}
      ensures From(pipes.items, old(pipes.items))
      ensures more ==> pipes.items[current] == old(pipes.items[current])
    {
      hide First, Distinct, Fair;
      pipes.AllDistinct();
      FirstAt(pipes.items, pipes.Index(p), active);
      Joins(pipes.items, pipes.Index(p), current, current, active);
      JoinKeeps(history, First(pipes.items, current), Active(), round, p);
      pipes.Swap(pipes.Index(p), active);
      active := active + 1;
    }

    /** A passive pipe has something to read again. */
    method Activated(p: Pipe)
      requires Valid() && p in pipes.items && p !in Active() && p.inActive
      modifies this`active, pipes`items, pipes.items`arrayIndex
      ensures Valid() && All() == old(All()) && Active() == old(Active()) + {p}
      ensures more ==> pipes.items[current] == old(pipes.items[current])
    {
      hide First, Fair, PipeArray.Valid, Whole;
      Promote(p);
    }

    /** The peer of a pipe flushes whole messages: process_activate_read, if the pipe was found empty before. */
    method ReadActivated(p: Pipe, parts: seq<bool>)
      requires Valid() && p in pipes.items && Whole(parts)
      modifies this`active, pipes`items, pipes.items`arrayIndex, p`inActive, p`inbound
      ensures Valid() && All() == old(All()) && p.inbound == old(p.inbound) + parts && p.inActive
      ensures Active() == if old(p.inActive) then old(Active()) else old(Active()) + {p}
      ensures more ==> pipes.items[current] == old(pipes.items[current])
    {
      hide First, Fair, PipeArray.Valid, Whole;
      p.Arrive(parts);
      if !p.inActive {
        p.inActive := true;
        Activated(p);
      }
    }

    /** The current pipe is replaced by the last active one; at the end of these a round is over. */
    method Deactivate()
      requires Turning() && active > 0 && !more
      modifies this`active, this`current, this`history, this`round, pipes`items, pipes.items`arrayIndex
      ensures Turning() && active == old(active) - 1 && All() == old(All()) && From(pipes.items, old(pipes.items))
      ensures Active() == old(Active()) - {old(pipes.items[current])}
      ensures history == old(history) + [Deactivated(old(pipes.items[current]), old(round))]
    {
      hide First, Distinct, Fair, Swapped;
      ghost var s, p := pipes.items, pipes.items[current];
      pipes.AllDistinct();
      FirstAt(s, current, active);
      FirstAt(s, current, current);
      Leaves(s, current, active, current);
      Leaves(s, current, active, |s|);
      DeactivateKeeps(history, First(s, current), First(s, active), round, p);
      active := active - 1;
      pipes.Swap(current, active);
      history := history + [Deactivated(p, round)];
      if current == active {
        RoundKeeps(history, First(pipes.items, active), round);
        FirstNone(pipes.items);
        current := 0;
        round := round + 1;
      }
    }

    /** The bookkeeping of recvpipe after the last part of a message: the turn goes on. */
    method Served()
      requires Turning() && active > 0
      modifies this`current, this`history, this`round, this`more
      ensures Turning() && !more
      ensures history == old(history) + [Delivered(old(pipes.items[current]), old(round))]
    {
      hide First, Distinct, Fair, PipeArray.Valid;
      ghost var s, p := pipes.items, pipes.items[current];
      pipes.AllDistinct();
      FirstAt(s, current, active);
      FirstAt(s, current, current);
      FirstNext(s, current);
      DeliverKeeps(history, First(s, current), First(s, active), round, p);
      history := history + [Delivered(p, round)];
      if current + 1 == active {
        RoundKeeps(history, First(s, active), round);
        FirstNone(s);
        round := round + 1;
      }
      Turn(current, active);
      current := (current + 1) % active;
      more := false;
    }

    lemma Turn(c: nat, a: nat)
      requires c < a
      ensures (c + 1) % a == if c + 1 == a then 0 else c + 1
    {
    }

    /** One turn of the loop of recvpipe: a part of the current pipe, or this pipe is passive. */
    method ReadCurrent() returns (from: Option<Pipe>)
      requires Valid() && active > 0
      modifies this, pipes`items, pipes.items`arrayIndex, pipes.items`inActive, pipes.items`inbound
      ensures Valid() && All() == old(All()) && From(pipes.items, old(pipes.items))
      ensures old(pipes.items[current]) in old(Active())
      ensures var p := old(pipes.items[current]);
              if old(p.inbound) == [] then
                && from == None && !more && !old(more) && p.inbound == [] && active == old(active) - 1
                && Active() == old(Active()) - {p}
                && history == old(history) + [Deactivated(p, old(round))]
              else
                && from == Some(p) && old(p.inbound) == [more] + p.inbound && Active() == old(Active())
                && pipes.items == old(pipes.items) && active == old(active)
                && (more ==> current == old(current) && history == old(history))
                && (!more ==> history == old(history) + [Delivered(p, old(round))])
      ensures forall q :: q in old(pipes.items) && q != old(pipes.items[current]) ==> q.inbound == old(q.inbound)
    {
      hide Fair, First, PipeArray.Valid;
      ghost var p, before := pipes.items[current], pipes.items;
      FirstIs(pipes.items, active, p);
      var fetched, msgMore := pipes.items[current].Read();
      if fetched {
        from := Some(pipes.items[current]);
        more := msgMore;
        if !more {
          Served();
        }
        return;
      }
      assert !more;                         // zmq_assert (!more)
      Deactivate();
      return None;
    }

    /** recvpipe: the next part, and the pipe it came from; None if no active pipe has anything.  A pipe that has
        something to read stays active. */
    method RecvPipe() returns (from: Option<Pipe>)
      requires Valid()
      modifies this, pipes`items, pipes.items`arrayIndex, pipes.items`inActive, pipes.items`inbound
      ensures Valid() && All() == old(All()) && old(history) <= history
      ensures from.None? <==> forall p :: p in old(Active()) ==> old(p.inbound) == []
      ensures from.None? ==> active == 0 && !more && !old(more)
      ensures from.Some? ==> from.value in old(Active()) && old(from.value.inbound) == [more] + from.value.inbound
      ensures forall q :: q in old(pipes.items) && from != Some(q) ==> q.inbound == old(q.inbound)
      ensures Active() <= old(Active())
      ensures forall p :: p in old(Active()) && p !in Active() ==> old(p.inbound) == []
      ensures from.Some? && more ==> active > 0 && from.value == pipes.items[current]
      ensures from.Some? && !more ==>
                && history != []
                && history[|history| - 1].Delivered? && history[|history| - 1].pipe == from.value
      ensures old(more) ==> from == Some(old(pipes.items[current])) && Active() == old(Active())
      ensures forall i :: |old(history)| <= i < |history| && (more || from.None? || i < |history| - 1) ==>
                && history[i].Deactivated?
                && var p := history[i].pipe; p in old(Active()) && old(p.inbound) == []
    {
      hide Fair, First, PipeArray.Valid;
      while active > 0
        invariant Valid() && All() == old(All()) && old(history) <= history && From(pipes.items, old(pipes.items))
        invariant Active() <= old(Active())
        invariant forall p :: p in old(Active()) && p !in Active() ==> old(p.inbound) == []
        invariant more == old(more) && forall q :: q in old(pipes.items) ==> q.inbound == old(q.inbound)
        invariant more ==> pipes.items[current] == old(pipes.items[current]) && Active() == old(Active())
        invariant forall i :: |old(history)| <= i < |history| ==>
            && history[i].Deactivated?
            && var p := history[i].pipe; p in old(Active()) && old(p.inbound) == []
        decreases active
      {
        from := ReadCurrent();
        if from.Some? {
          return;
        }
      }
      FirstNone(pipes.items);
      return None;
    }

    /** has_in: whether there is something to read; empty pipes are deactivated on the way. */
    method HasIn() returns (b: bool)
      requires Valid()
      modifies this`active, this`current, this`history, this`round, pipes`items, pipes.items`arrayIndex
      modifies pipes.items`inActive
      ensures Valid() && All() == old(All()) && old(history) <= history
      ensures b <==> exists p :: p in old(Active()) && p.inbound != []
      ensures b <==> active > 0
      ensures Active() <= old(Active()) && forall p :: p in old(Active()) && p !in Active() ==> p.inbound == []
      ensures b ==> pipes.items[current].inbound != []
      ensures more ==> b && current == old(current) && pipes.items == old(pipes.items)
      ensures forall i :: |old(history)| <= i < |history| ==>
                history[i].Deactivated? && history[i].pipe in old(Active()) && history[i].pipe.inbound == []
    {
      hide Fair, First, PipeArray.Valid;
      if more {
        FirstIs(pipes.items, active, pipes.items[current]);
        return true;
      }
      while active > 0
        invariant Valid() && All() == old(All()) && old(history) <= history && From(pipes.items, old(pipes.items))
        invariant Active() <= old(Active())
        invariant forall p :: p in old(Active()) && p !in Active() ==> p.inbound == []
        invariant forall i :: |old(history)| <= i < |history| ==>
            history[i].Deactivated? && history[i].pipe in old(Active()) && history[i].pipe.inbound == []
        decreases active
      {
        FirstIs(pipes.items, active, pipes.items[current]);
        var readable := pipes.items[current].CheckRead();
        if readable {
          return true;
        }
        Deactivate();
      }
      FirstNone(pipes.items);
      return false;
    }
  }
}
