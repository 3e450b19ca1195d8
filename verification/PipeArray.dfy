/** array_t of libzmq (src/array.hpp): an array of pipes in which every pipe holds its own position, so that it
    is found, moved and removed in constant time. */
module PipeArray {

  /** One part of a message: the number of the message and that of the part, both from 0. */
  datatype Part = Part(msg: nat, part: nat)

  /** What pipe_t knows of its outbound side: whether the peer may be written to, and how many messages went
      there and were read. */
  datatype Outbound = Outbound(active: bool, open: bool, hwm: int, written: nat, readByPeer: nat) {
    /** check_hwm, negated.  The difference in the source is one of unsigned numbers. */
    predicate Full() { hwm > 0 && (written < readByPeer || written - readByPeer >= hwm) }

    predicate Takes() { active && open && !Full() }
  }

  /** Parts, each with whether more of its message follows: whole messages, but for a first that has begun. */
  predicate Whole(parts: seq<bool>) { parts != [] ==> !parts[|parts| - 1] }

  /** pipe_t (src/pipe.cpp) as far as its users here see it. */
  class Pipe {
    var arrayIndex: map<nat, int>   // one position for each kind of array, the ID of array_item_t
    var out: Outbound
    var inActive: bool
    var inbound: seq<bool>          // what inpipe holds to be read
    ghost var log: seq<Part>        // the parts written, in order
    ghost var flushed: nat          // how many of them the reader can see

    constructor (hwm: int)
      ensures arrayIndex == map[] && log == [] && flushed == 0
      ensures out == Outbound(true, true, hwm, 0, 0) && inActive && inbound == []
    {
      arrayIndex, log, flushed := map[], [], 0;
      out, inActive, inbound := Outbound(true, true, hwm, 0, 0), true, [];
    }

    /** check_write: a pipe that is full is not written to until it is activated. */
    method CheckWrite() returns (ok: bool)
      modifies this`out
      ensures ok == old(out).Takes()
      ensures out == if old(out.open && out.Full()) then old(out).(active := false) else old(out)
    {
      if !out.active || !out.open {
        return false;
      }
      if out.Full() {
        out := out.(active := false);
        return false;
      }
      return true;
    }

    /** write: taken unless the pipe is inactive, closed, or hwm messages ahead of its reader. */
    method Write(ghost part: Part, more: bool) returns (ok: bool)
      modifies this`log, this`out
      ensures ok == old(out).Takes()
      ensures ok <==> old(out.active && out.open && (out.hwm > 0 ==>
                  out.readByPeer <= out.written < out.readByPeer + out.hwm))
      ensures log == if ok then old(log) + [part] else old(log)
      ensures ok ==> out == old(out).(written := if more then old(out.written) else old(out.written) + 1)
      ensures !ok ==> !out.Takes()
    {
      ok := CheckWrite();
      if ok {
        log := log + [part];
        if !more {
          out := out.(written := out.written + 1);
        }
      }
    }

    method Flush()
      modifies this`flushed
      ensures flushed == |log|
    {
      flushed := |log|;
    }

    /** check_read: a pipe that is found empty is not read again until it is activated. */
    method CheckRead() returns (readable: bool)
      modifies this`inActive
      ensures readable <==> old(inActive) && inbound != []
      ensures inActive == readable
    {
      if !inActive {
        return false;
      }
      if inbound == [] {
        inActive := false;
        return false;
      }
      return true;
    }

    /** read: the next part, and whether more of its message follows. */
    method Read() returns (fetched: bool, more: bool)
      modifies this`inActive, this`inbound
      ensures fetched <==> old(inActive) && old(inbound) != []
      ensures inActive == fetched
      ensures old(inbound) == if fetched then [more] + inbound else inbound
    {
      if !inActive {
        return false, false;
      }
      if inbound == [] {
        inActive := false;
        return false, false;
      }
      fetched, more := true, inbound[0];
      inbound := inbound[1..];
    }

    /** Messages come from the peer, which flushes whole messages only. */
    method Arrive(parts: seq<bool>)
      requires Whole(parts)
      modifies this`inbound
      ensures inbound == old(inbound) + parts && (Whole(old(inbound)) ==> Whole(inbound))
    {
      inbound := inbound + parts;
    }
  }

  function Swapped<T>(s: seq<T>, i: nat, j: nat): (r: seq<T>)
    requires i < |s| && j < |s|
    ensures |r| == |s|
  {
    s[i := s[j]][j := s[i]]
  }

  // ----- The pipes at the front of an array -----

  function First(s: seq<Pipe>, n: nat): (r: set<Pipe>)
    requires n <= |s|
    ensures forall p :: p in r ==> p in s
  {
    set p | p in s[..n]
  }

  predicate Distinct(s: seq<Pipe>) { forall i, j :: 0 <= i < j < |s| ==> s[i] != s[j] }

  lemma FirstIs(s: seq<Pipe>, n: nat, p: Pipe)
    requires n <= |s|
    ensures p in First(s, n) <==> exists i :: 0 <= i < n && s[i] == p
  {
    if i :| 0 <= i < n && s[i] == p {
      assert s[..n][i] == p;
    }
  }

  lemma FirstAt(s: seq<Pipe>, i: nat, n: nat)
    requires i < |s| && n <= |s| && Distinct(s)
    ensures s[i] in First(s, n) <==> i < n
  {
    hide First;
    FirstIs(s, n, s[i]);
  }

  lemma FirstAll(s: seq<Pipe>, p: Pipe)
    ensures p in First(s, |s|) <==> p in s
  {
  }

  lemma FromAll(t: seq<Pipe>, s: seq<Pipe>)
    requires First(t, |t|) == First(s, |s|)
    ensures From(t, s)
  {
    hide First;
    forall j | 0 <= j < |t| ensures t[j] in s {
      FirstAll(t, t[j]);
    }
  }

  lemma FirstNext(s: seq<Pipe>, n: nat)
    requires n < |s|
    ensures First(s, n + 1) == First(s, n) + {s[n]}
  {
    assert s[..n + 1] == s[..n] + [s[n]];
  }

  /** Places that agree up to n. */
  lemma FirstSame(s: seq<Pipe>, t: seq<Pipe>, n: nat)
    requires n <= |s| && n <= |t| && forall k :: 0 <= k < n ==> s[k] == t[k]
    ensures First(s, n) == First(t, n)
  {
    assert s[..n] == t[..n];
  }

  lemma FirstSwap(s: seq<Pipe>, i: nat, j: nat, n: nat)
    requires i < |s| && j < |s| && n <= |s| && (i < n <==> j < n)
    ensures First(Swapped(s, i, j), n) == First(s, n)
  {
    hide First;
    var t := Swapped(s, i, j);
    forall p | p in First(s, n) ensures p in First(t, n) {
      FirstIs(t, n, p);
      FirstIs(s, n, p);
      var k :| 0 <= k < n && s[k] == p;
      var l := if k == i then j else if k == j then i else k;
      assert t[l] == p;
    }
    forall p | p in First(t, n) ensures p in First(s, n) {
      FirstIs(t, n, p);
      FirstIs(s, n, p);
      var k :| 0 <= k < n && t[k] == p;
      var l := if k == i then j else if k == j then i else k;
      assert s[l] == p;
    }
  }

  lemma DistinctSwap(s: seq<Pipe>, i: nat, j: nat)
    requires i < |s| && j < |s| && Distinct(s)
    ensures Distinct(Swapped(s, i, j))
  {
  }

  /** A pipe leaves the first n when it changes places with the last of them. */
  lemma SwapOut(s: seq<Pipe>, i: nat, n: nat)
    requires i < n <= |s| && Distinct(s)
    ensures var t := Swapped(s, i, n - 1);
            Distinct(t) && t[n - 1] == s[i] && First(t, n - 1) == First(s, n) - {s[i]}
  {
    hide First;
    var t := Swapped(s, i, n - 1);
    DistinctSwap(s, i, n - 1);
    FirstSwap(s, i, n - 1, n);
    FirstNext(t, n - 1);
    FirstAt(t, n - 1, n - 1);
  }

  /** A pipe joins the first n when it changes places with the first behind them. */
  lemma SwapIn(s: seq<Pipe>, i: nat, n: nat)
    requires n <= i < |s| && Distinct(s)
    ensures var t := Swapped(s, i, n);
            Distinct(t) && t[n] == s[i] && First(t, n + 1) == First(s, n) + {s[i]}
  {
    hide First;
    var t := Swapped(s, i, n);
    DistinctSwap(s, i, n);
    FirstSwap(s, i, n, n);
    FirstNext(t, n);
  }

  /** A pipe that is among the first n, but not among the first m, changes places with the last of these. */
  lemma Leaves(s: seq<Pipe>, i: nat, n: nat, k: nat)
    requires i < n <= |s| && (k <= i || n <= k <= |s|) && Distinct(s)
    ensures var t := Swapped(s, i, n - 1);
            && t[n - 1] == s[i] && First(t, n - 1) == First(s, n) - {s[i]} && First(t, k) == First(s, k)
  {
    hide First, Swapped;
    SwapOut(s, i, n);
    FirstSwap(s, i, n - 1, k);
  }

  /** The pipe at i, behind the first e, is erased. */
  lemma Erased(s: seq<Pipe>, i: nat, k: nat)
    requires k <= i < |s| && Distinct(s)
    ensures var t := s[i := s[|s| - 1]][..|s| - 1];
            First(t, k) == First(s, k) && First(t, |t|) == First(s, |s|) - {s[i]}
  {
    hide First;
    var n := |s| - 1;
    var t := s[i := s[n]][..n];
    FirstSame(t, s, k);
    SwapOut(s, i, n + 1);
    FirstSame(t, Swapped(s, i, n), n);
  }

  lemma FirstNone(s: seq<Pipe>)
    ensures First(s, 0) == {}
  {
  }

  lemma SwapSelf(s: seq<Pipe>, i: nat)
    requires i < |s|
    ensures Swapped(s, i, i) == s
  {
  }

  /** The array after a pipe is pushed and put at place n. */
  lemma Pushed(s: seq<Pipe>, p: Pipe, n: nat, m: nat)
    requires m <= n <= |s| && Distinct(s) && p !in s
    ensures var t := Swapped(s + [p], n, |s|);
            && First(t, m) == First(s, m) && First(t, n) == First(s, n)
            && First(t, n + 1) == First(s, n) + {p} && First(t, |t|) == First(s, |s|) + {p}
  {
    hide First;
    var u := s + [p];
    var t := Swapped(u, n, |s|);
    FirstSame(t, s, m);
    FirstSame(t, s, n);
    FirstNext(t, n);
    FirstSwap(u, n, |s|, |u|);
    FirstNext(u, |s|);
    FirstSame(u, s, |s|);
  }

  /** A pipe from behind joins the first e. */
  lemma Joins(s: seq<Pipe>, i: nat, m: nat, a: nat, e: nat)
    requires m <= a <= e <= i < |s| && Distinct(s)
    ensures var t := Swapped(s, i, e);
            && First(t, m) == First(s, m) && First(t, a) == First(s, a) && First(t, e) == First(s, e)
            && First(t, e + 1) == First(s, e) + {s[i]} && First(t, |t|) == First(s, |s|)
  {
    hide First, Swapped;
    SwapIn(s, i, e);
    FirstSwap(s, i, e, m);
    FirstSwap(s, i, e, a);
    FirstSwap(s, i, e, e);
    FirstSwap(s, i, e, |s|);
  }

  /** Only pipes of s. */
  predicate From(t: seq<Pipe>, s: seq<Pipe>) { forall j :: 0 <= j < |t| ==> t[j] in s }

  class PipeArray {
    const id: nat
    var items: seq<Pipe>

    ghost predicate Valid()
      reads this, items`arrayIndex
    {
      forall i :: 0 <= i < |items| ==> id in items[i].arrayIndex && items[i].arrayIndex[id] == i
    }

    constructor (id: nat)
      ensures Valid() && items == [] && this.id == id
    {
      this.id := id;
      items := [];
    }

    /** A pipe's position is the one place where it is. */
    lemma Once(i: nat, j: nat)
      requires Valid() && i < |items| && j < |items|
      ensures items[i] == items[j] <==> i == j
    {
    }

    lemma AllDistinct()
      requires Valid()
      ensures Distinct(items)
    {
    }

    function Index(p: Pipe): (i: nat)
      requires Valid() && p in items
      reads this, items`arrayIndex
      ensures i < |items| && items[i] == p
    {
      p.arrayIndex[id]
    }

    method PushBack(p: Pipe)
      requires Valid() && p !in items
      modifies this`items, p`arrayIndex
      ensures Valid() && items == old(items) + [p]
      ensures p.arrayIndex == old(p.arrayIndex)[id := |old(items)|]
    {
      p.arrayIndex := p.arrayIndex[id := |items|];
      items := items + [p];
    }

    method Swap(i: nat, j: nat)
      requires Valid() && i < |items| && j < |items|
      modifies this`items, items`arrayIndex
      ensures Valid() && items == Swapped(old(items), i, j) && From(items, old(items))
      ensures forall k: nat, p :: k != id && p in items && k in old(p.arrayIndex) ==>
                k in p.arrayIndex && p.arrayIndex[k] == old(p.arrayIndex[k])
    {
      items[i].arrayIndex := items[i].arrayIndex[id := j];
      items[j].arrayIndex := items[j].arrayIndex[id := i];
      items := items[i := items[j]][j := items[i]];
    }

    method Erase(p: Pipe)
      requires Valid() && p in items
      modifies this`items, items`arrayIndex
      ensures Valid() && p !in items && From(items, old(items))
      ensures var n := |old(items)| - 1;
              items == old(items)[old(Index(p)) := old(items)[n]][..n]
    {
      var i := Index(p);
      var n := |items| - 1;
      items[n].arrayIndex := items[n].arrayIndex[id := i];
      items := items[i := items[n]][..n];
    }
  }
}
